/** Extraction of one region's case, death and date series from the loaded table. */
module TimeSeries {
  import opened Wrappers

  /** One row of the table: a day's cumulative counts for one region. */
  datatype Record = Record(date: string, state: string, cases: int, deaths: int)

  /** The three columns the chart plots, index-aligned. */
  datatype Series = Series(cases: seq<int>, deaths: seq<int>, dates: seq<string>)

  /** The selector is neither "us" nor a key of the state table. */
  datatype SelectorError = UnknownSelector(selector: string)

  /** The state table: short selector to the full name stored in the state column. */
  function StateName(selector: string): (r: Option<string>)
    ensures r.Some? <==> selector in {"de", "nj", "ny", "md"}
  {
    match selector
    case "de" => Some("Delaware")
    case "nj" => Some("New Jersey")
    case "ny" => Some("New York")
    case "md" => Some("Maryland")
    case _ => None
  }

  /** The rows whose state is `name`, in table order (the `.loc` row filter). */
  function RowsOf(table: seq<Record>, name: string): (rows: seq<Record>)
    ensures |rows| <= |table|
  {
    if table == [] then []
    else if table[0].state == name then [table[0]] + RowsOf(table[1..], name)
    else RowsOf(table[1..], name)
  }

  /** The cases, deaths and date columns of `rows`. */
  function Columns(rows: seq<Record>): (s: Series)
    ensures |s.cases| == |rows| && |s.deaths| == |rows| && |s.dates| == |rows|
    ensures forall i :: 0 <= i < |rows| ==>
              s.cases[i] == rows[i].cases && s.deaths[i] == rows[i].deaths && s.dates[i] == rows[i].date
  {
    if rows == [] then Series([], [], [])
    else
      var rest := Columns(rows[1..]);
      Series([rows[0].cases] + rest.cases, [rows[0].deaths] + rest.deaths, [rows[0].date] + rest.dates)
  }

  /** get_time_series: "us" keeps the whole table; a state selector keeps that state's rows;
      any other selector fails on the state-table lookup. */
  function GetTimeSeries(table: seq<Record>, selector: string): (r: Result<Series, SelectorError>)
    ensures r.Err? <==> selector != "us" && selector !in {"de", "nj", "ny", "md"}
    ensures r.Err? ==> r.error == UnknownSelector(selector)
    ensures r.Ok? ==> |r.value.cases| == |r.value.deaths| == |r.value.dates| <= |table|
    ensures selector == "us" ==> r.Ok? && |r.value.dates| == |table|
  {
    if selector == "us" then Ok(Columns(table))
    else
      match StateName(selector)
      case None => Err(UnknownSelector(selector))
      case Some(name) => Ok(Columns(RowsOf(table, name)))
  }

  /** A row is kept exactly when it is in the table and belongs to state `name`. */
  lemma {:induction false} RowsOfMembers(table: seq<Record>, name: string, r: Record)
    ensures r in RowsOf(table, name) <==> r in table && r.state == name
  {
    if table != [] {
      RowsOfMembers(table[1..], name, r);
      assert r in table <==> r == table[0] || r in table[1..];
    }
  }

  /** Filtering a concatenation filters each part: the filter keeps the table's order. */
  lemma {:induction false} RowsOfAppend(a: seq<Record>, b: seq<Record>, name: string)
    ensures RowsOf(a + b, name) == RowsOf(a, name) + RowsOf(b, name)
  {
    if a == [] {
      assert a + b == b;
    } else {
      assert (a + b)[0] == a[0] && (a + b)[1..] == a[1..] + b;
      RowsOfAppend(a[1..], b, name);
    }
  }

  /** The k-th row kept is the k-th row of the table whose state is `name`: `idx` lists the
      positions of exactly those rows, in increasing order. */
  predicate PicksRows(table: seq<Record>, name: string, idx: seq<nat>)
  {
    && (forall k :: 0 <= k < |idx| ==> idx[k] < |table|)
    && (forall k, l :: 0 <= k < l < |idx| ==> idx[k] < idx[l])
    && (forall j :: 0 <= j < |table| ==> (j in idx <==> table[j].state == name))
  }

  /** Each position moved one row down, for a table that gained a row in front. */
  function Shift(idx: seq<nat>): (r: seq<nat>)
    ensures |r| == |idx| && forall k :: 0 <= k < |idx| ==> r[k] == idx[k] + 1
  {
    seq(|idx|, k requires 0 <= k < |idx| => idx[k] + 1)
  }

  /** The positions of the rows whose state is `name`, listing the rows the filter keeps. */
  ghost function Positions(table: seq<Record>, name: string): (idx: seq<nat>)
    ensures ListsKept(table, name, idx)
  {
    if table == [] then []
    else
      var rest := Positions(table[1..], name);
      PositionsStep(table, name, rest);
      if table[0].state == name then [0] + Shift(rest) else Shift(rest)
  }

  /** `idx` picks the rows of state `name` and reads, position by position, the rows the
      filter keeps. */
  predicate ListsKept(table: seq<Record>, name: string, idx: seq<nat>)
  {
    && PicksRows(table, name, idx)
    && |idx| == |RowsOf(table, name)|
    && forall k :: 0 <= k < |idx| ==> RowsOf(table, name)[k] == table[idx[k]]
  }

  /** The positions in the table's tail, moved down one row, with the front row put first
      when it matches, are the positions in the whole table. */
  lemma PositionsStep(table: seq<Record>, name: string, rest: seq<nat>)
    requires table != [] && ListsKept(table[1..], name, rest)
    ensures ListsKept(table, name, if table[0].state == name then [0] + Shift(rest) else Shift(rest))
  {
    ShiftMembers(table, name, rest);
    if table[0].state == name {
      PositionsKeepFront(table, name, rest);
    } else {
      PositionsSkipFront(table, name, rest);
    }
  }

  lemma PositionsKeepFront(table: seq<Record>, name: string, rest: seq<nat>)
    requires table != [] && ListsKept(table[1..], name, rest) && table[0].state == name
    requires forall j :: 1 <= j < |table| ==> (j in Shift(rest) <==> table[j].state == name)
    ensures ListsKept(table, name, [0] + Shift(rest))
  {
    FrontThenShiftIncreasing(rest);
    KeepFrontRows(table, name, rest);
  }

  /** With the front row kept, the k-th kept row sits at the k-th position. */
  lemma KeepFrontRows(table: seq<Record>, name: string, rest: seq<nat>)
    requires table != [] && ListsKept(table[1..], name, rest) && table[0].state == name
    ensures var idx := [0] + Shift(rest);
      && |idx| == |RowsOf(table, name)|
      && forall k :: 0 <= k < |idx| ==> idx[k] < |table| && RowsOf(table, name)[k] == table[idx[k]]
  {
  }

  /** Position 0 followed by increasing positions moved down one row is still increasing. */
  lemma FrontThenShiftIncreasing(rest: seq<nat>)
    requires forall k, l :: 0 <= k < l < |rest| ==> rest[k] < rest[l]
    ensures var idx := [0] + Shift(rest); forall k, l :: 0 <= k < l < |idx| ==> idx[k] < idx[l]
  {
  }

  lemma PositionsSkipFront(table: seq<Record>, name: string, rest: seq<nat>)
    requires table != [] && ListsKept(table[1..], name, rest) && table[0].state != name
    requires forall j :: 1 <= j < |table| ==> (j in Shift(rest) <==> table[j].state == name)
    ensures ListsKept(table, name, Shift(rest))
  {
  }

  /** A row of the tail is picked exactly when its shifted position is. */
  lemma ShiftMembers(table: seq<Record>, name: string, rest: seq<nat>)
    requires table != [] && PicksRows(table[1..], name, rest)
    ensures forall j :: 1 <= j < |table| ==> (j in Shift(rest) <==> table[j].state == name)
  {
  }

  /** For "us" the series are the whole table's columns, row by row and in table order. */
  lemma UsSeriesIsWholeTable(table: seq<Record>)
    ensures GetTimeSeries(table, "us").Ok?
    ensures var s := GetTimeSeries(table, "us").value;
      && |s.cases| == |s.deaths| == |s.dates| == |table|
      && forall i :: 0 <= i < |table| ==>
           s.cases[i] == table[i].cases && s.deaths[i] == table[i].deaths && s.dates[i] == table[i].date
  {
  }

  /** For a state selector the series come from exactly the rows of that state, in table
      order: the k-th entry of each series is read from the same matching row. */
  lemma StateSeriesRows(table: seq<Record>, selector: string, name: string)
    requires StateName(selector) == Some(name)
    ensures GetTimeSeries(table, selector).Ok?
    ensures var s := GetTimeSeries(table, selector).value;
      exists idx :: PicksRows(table, name, idx) && |idx| == |s.cases| == |s.deaths| == |s.dates|
        && forall k :: 0 <= k < |idx| ==>
             s.cases[k] == table[idx[k]].cases && s.deaths[k] == table[idx[k]].deaths
             && s.dates[k] == table[idx[k]].date
  {
    var idx := Positions(table, name);
    assert PicksRows(table, name, idx);
  }

  /** A date appears in a state's series exactly when some row of that state carries it. */
  lemma StateSeriesDates(table: seq<Record>, selector: string, name: string, d: string)
    requires StateName(selector) == Some(name)
    ensures GetTimeSeries(table, selector).Ok?
    ensures d in GetTimeSeries(table, selector).value.dates <==>
              exists j :: 0 <= j < |table| && table[j].state == name && table[j].date == d
  {
    var rows := RowsOf(table, name);
    var s := Columns(rows);
    if d in s.dates {
      var k :| 0 <= k < |s.dates| && s.dates[k] == d;
      RowsOfMembers(table, name, rows[k]);
      var j :| 0 <= j < |table| && table[j] == rows[k];
      assert table[j].state == name && table[j].date == d;
    }
    if exists j :: 0 <= j < |table| && table[j].state == name && table[j].date == d {
      var j :| 0 <= j < |table| && table[j].state == name && table[j].date == d;
      RowsOfMembers(table, name, table[j]);
      var k :| 0 <= k < |rows| && rows[k] == table[j];
      assert s.dates[k] == d;
    }
  }
}
