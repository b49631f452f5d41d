/** `DataApp.get_data` and `DataApp.get_plot`: filtering the dataset by
    area, year range and (for the table only) week range, and projecting
    the chosen indicator. */
module Query {
  import opened Results
  import opened Digits
  import opened Records
  import opened Ranges
  import opened Subsequences

  /** The three indicator columns the selector offers. */
  datatype Indicator = VCI | TCI | VHI

  function Reading(o: Observation, ind: Indicator): real {
    match ind
    case VCI => o.vci
    case TCI => o.tci
    case VHI => o.vhi
  }

  /** One row of `filtered_df[['Year', 'Week', indicator]]`. */
  datatype Row = Row(year: int, week: int, value: real)

  /** One point handed to the line plot: Year against the indicator. */
  datatype Point = Point(year: int, value: real)

  /** The interactive parameters, as texts where the page sends texts. */
  datatype Params = Params(indicator: Indicator, areaIndex: string, rangeYears: string, rangeWeeks: string)

  /** `Series.between(lo, hi)`: inclusive on both ends. */
  predicate Within(x: int, b: Bounds) {
    b.lo <= x <= b.hi
  }

  /** A filter: the area, the year bounds and, for the table, the week bounds. */
  datatype Criteria = Criteria(area: int, years: Bounds, weeks: Option<Bounds>)

  predicate Matches(o: Observation, c: Criteria) {
    o.area == c.area && Within(o.year, c.years) && (c.weeks.Some? ==> Within(o.week, c.weeks.value))
  }

  /** `df[mask]`: the rows the mask keeps, in dataset order. */
  function Select(ds: seq<Observation>, c: Criteria): (r: seq<Observation>)
    ensures |r| <= |ds|
    ensures forall o :: o in r ==> o in ds && Matches(o, c)
    ensures forall o :: o in ds && Matches(o, c) ==> o in r
  {
    if |ds| == 0 then []
    else (if Matches(ds[0], c) then [ds[0]] else []) + Select(ds[1..], c)
  }

  /** The selection keeps the dataset's order. */
  lemma {:induction false} SelectIsSubseq(ds: seq<Observation>, c: Criteria)
    ensures IsSubseq(Select(ds, c), ds)
  {
    if |ds| > 0 {
      SelectIsSubseq(ds[1..], c);
      var r := Select(ds, c);
      if Matches(ds[0], c) {
        assert r[0] == ds[0] && r[1..] == Select(ds[1..], c);
      } else {
        assert r == Select(ds[1..], c);
      }
    }
  }

  /** The selection keeps every matching row as often as the dataset
      holds it, and nothing else. */
  lemma {:induction false} SelectCounts(ds: seq<Observation>, c: Criteria)
    ensures forall o :: multiset(Select(ds, c))[o] == if Matches(o, c) then multiset(ds)[o] else 0
  {
    if |ds| > 0 {
      SelectCounts(ds[1..], c);
      assert ds == [ds[0]] + ds[1..];
      assert multiset(ds) == multiset([ds[0]]) + multiset(ds[1..]);
    }
  }

  /** Filtering a concatenation filters each part. */
  lemma {:induction false} SelectAppend(a: seq<Observation>, b: seq<Observation>, c: Criteria)
    ensures Select(a + b, c) == Select(a, c) + Select(b, c)
  {
    if |a| == 0 {
      assert a + b == b;
    } else {
      assert (a + b)[0] == a[0];
      assert (a + b)[1..] == a[1..] + b;
      SelectAppend(a[1..], b, c);
    }
  }

  /** The table's rows are among the plot's rows, in the same order: the
      plot drops only the week bound. */
  lemma {:induction false} TableWithinPlot(ds: seq<Observation>, c: Criteria)
    requires c.weeks.Some?
    ensures IsSubseq(Select(ds, c), Select(ds, c.(weeks := None)))
  {
    var p := c.(weeks := None);
    if |ds| > 0 {
      TableWithinPlot(ds[1..], c);
      var r := Select(ds, c);
      var q := Select(ds, p);
      if Matches(ds[0], c) {
        assert q[0] == ds[0] && q[1..] == Select(ds[1..], p);
        assert r[0] == ds[0] && r[1..] == Select(ds[1..], c);
      } else if Matches(ds[0], p) {
        assert r == Select(ds[1..], c);
        assert q[1..] == Select(ds[1..], p);
      } else {
        assert r == Select(ds[1..], c) && q == Select(ds[1..], p);
      }
    }
  }

  /** Reversed bounds select nothing. */
  lemma ReversedBoundsSelectNothing(ds: seq<Observation>, c: Criteria)
    requires c.years.lo > c.years.hi || (c.weeks.Some? && c.weeks.value.lo > c.weeks.value.hi)
    ensures Select(ds, c) == []
  {
  }

  /** A filter on an area no row carries selects nothing. */
  lemma AbsentAreaSelectsNothing(ds: seq<Observation>, c: Criteria)
    requires forall o :: o in ds ==> o.area != c.area
    ensures Select(ds, c) == []
  {
  }

  function ToRow(o: Observation, ind: Indicator): Row {
    Row(o.year, o.week, Reading(o, ind))
  }

  function ToPoint(o: Observation, ind: Indicator): Point {
    Point(o.year, Reading(o, ind))
  }

  /** The projection to Year, Week and the chosen indicator, row by row. */
  function Rows(sel: seq<Observation>, ind: Indicator): (r: seq<Row>)
    ensures |r| == |sel| && forall i :: 0 <= i < |sel| ==> r[i] == ToRow(sel[i], ind)
  {
    if |sel| == 0 then [] else [ToRow(sel[0], ind)] + Rows(sel[1..], ind)
  }

  function Points(sel: seq<Observation>, ind: Indicator): (r: seq<Point>)
    ensures |r| == |sel| && forall i :: 0 <= i < |sel| ==> r[i] == ToPoint(sel[i], ind)
  {
    if |sel| == 0 then [] else [ToPoint(sel[0], ind)] + Points(sel[1..], ind)
  }

  /** Projecting keeps subsequences. */
  lemma {:induction false} RowsKeepSubseq(a: seq<Observation>, b: seq<Observation>, ind: Indicator)
    requires IsSubseq(a, b)
    ensures IsSubseq(Rows(a, ind), Rows(b, ind))
    decreases |b|
  {
    if |a| > 0 {
      var ra := Rows(a, ind);
      var rb := Rows(b, ind);
      assert rb[1..] == Rows(b[1..], ind);
      if a[0] == b[0] && IsSubseq(a[1..], b[1..]) {
        RowsKeepSubseq(a[1..], b[1..], ind);
        assert ra[1..] == Rows(a[1..], ind);
      } else {
        RowsKeepSubseq(a, b[1..], ind);
      }
    }
  }

  /** `int(params['area_index'])`. */
  function AreaOf(text: string): (r: Result<int>)
    ensures r.Ok? <==> IsDigitString(text)
    ensures r.Ok? ==> r.value == Value(text)
    ensures r.Err? ==> r.error == BadArea(text)
  {
    match ParseNat(text)
    case Some(n) => Ok(n)
    case None => Err(BadArea(text))
  }

  /** The filter `get_data` applies once its parameters parse. */
  function TableCriteria(p: Params): Criteria
    requires ParseRange(p.rangeYears).Ok? && ParseRange(p.rangeWeeks).Ok? && IsDigitString(p.areaIndex)
  {
    Criteria(Value(p.areaIndex), ParseRange(p.rangeYears).value, Some(ParseRange(p.rangeWeeks).value))
  }

  /** `get_data`: both ranges parsed (years first), then the area, then
      the filter and the projection. */
  function GetData(ds: seq<Observation>, p: Params): (r: Result<seq<Row>>)
    ensures r.Ok? <==> ParseRange(p.rangeYears).Ok? && ParseRange(p.rangeWeeks).Ok? && IsDigitString(p.areaIndex)
    ensures ParseRange(p.rangeYears).Err? ==> r == Err(BadRange(p.rangeYears))
    ensures ParseRange(p.rangeYears).Ok? && ParseRange(p.rangeWeeks).Err? ==> r == Err(BadRange(p.rangeWeeks))
    ensures ParseRange(p.rangeYears).Ok? && ParseRange(p.rangeWeeks).Ok? && !IsDigitString(p.areaIndex) ==>
              r == Err(BadArea(p.areaIndex))
    ensures r.Ok? ==> |r.value| <= |ds|
  {
    var years :- ParseRange(p.rangeYears);
    var weeks :- ParseRange(p.rangeWeeks);
    var area :- AreaOf(p.areaIndex);
    Ok(Rows(Select(ds, Criteria(area, years, Some(weeks))), p.indicator))
  }

  /** `get_plot`: only the year range and the area are read; the week
      range is never consulted. */
  function GetPlot(ds: seq<Observation>, p: Params): (r: Result<seq<Point>>)
    ensures r.Ok? <==> ParseRange(p.rangeYears).Ok? && IsDigitString(p.areaIndex)
    ensures ParseRange(p.rangeYears).Err? ==> r == Err(BadRange(p.rangeYears))
    ensures ParseRange(p.rangeYears).Ok? && !IsDigitString(p.areaIndex) ==> r == Err(BadArea(p.areaIndex))
    ensures r.Ok? ==> |r.value| <= |ds|
  {
    var years :- ParseRange(p.rangeYears);
    var area :- AreaOf(p.areaIndex);
    Ok(Points(Select(ds, Criteria(area, years, None)), p.indicator))
  }

  /** Soundness of the table: every returned row is the projection of a
      dataset row of the requested area whose Year and Week lie within
      the inclusive bounds. */
  lemma GetDataSound(ds: seq<Observation>, p: Params)
    requires GetData(ds, p).Ok?
    ensures var yb := ParseRange(p.rangeYears).value;
            var wb := ParseRange(p.rangeWeeks).value;
            forall row :: row in GetData(ds, p).value ==>
              exists o :: o in ds && o.area == Value(p.areaIndex) &&
                          yb.lo <= o.year <= yb.hi && wb.lo <= o.week <= wb.hi &&
                          row == ToRow(o, p.indicator)
  {
    var sel := Select(ds, TableCriteria(p));
    forall row | row in GetData(ds, p).value
      ensures exists o :: o in ds && o.area == Value(p.areaIndex) &&
                          ParseRange(p.rangeYears).value.lo <= o.year <= ParseRange(p.rangeYears).value.hi &&
                          ParseRange(p.rangeWeeks).value.lo <= o.week <= ParseRange(p.rangeWeeks).value.hi &&
                          row == ToRow(o, p.indicator)
    {
      var i :| 0 <= i < |sel| && GetData(ds, p).value[i] == row;
      assert sel[i] in sel;
    }
  }

  /** Completeness of the table: every matching dataset row is returned. */
  lemma GetDataComplete(ds: seq<Observation>, p: Params)
    requires GetData(ds, p).Ok?
    ensures var yb := ParseRange(p.rangeYears).value;
            var wb := ParseRange(p.rangeWeeks).value;
            forall o :: o in ds && o.area == Value(p.areaIndex) &&
                        yb.lo <= o.year <= yb.hi && wb.lo <= o.week <= wb.hi ==>
              ToRow(o, p.indicator) in GetData(ds, p).value
  {
    var c := TableCriteria(p);
    var sel := Select(ds, c);
    var rows := GetData(ds, p).value;
    assert rows == Rows(sel, p.indicator);
    forall o | o in ds && Matches(o, c)
      ensures ToRow(o, p.indicator) in rows
    {
      var i :| 0 <= i < |sel| && sel[i] == o;
      assert rows[i] == ToRow(o, p.indicator);
    }
  }

  /** Order of the table: its rows are the projected dataset rows with
      some left out, in dataset order. */
  lemma GetDataOrdered(ds: seq<Observation>, p: Params)
    requires GetData(ds, p).Ok?
    ensures IsSubseq(GetData(ds, p).value, Rows(ds, p.indicator))
  {
    var c := TableCriteria(p);
    var sel := Select(ds, c);
    assert GetData(ds, p).value == Rows(sel, p.indicator);
    SelectIsSubseq(ds, c);
    RowsKeepSubseq(sel, ds, p.indicator);
  }

  /** The plot draws exactly the observations of the requested area whose
      Year lies within the inclusive bounds, whatever their Week. */
  lemma GetPlotExact(ds: seq<Observation>, p: Params)
    requires GetPlot(ds, p).Ok?
    ensures var yb := ParseRange(p.rangeYears).value;
            forall pt :: pt in GetPlot(ds, p).value ==>
              exists o :: o in ds && o.area == Value(p.areaIndex) && yb.lo <= o.year <= yb.hi &&
                          pt == ToPoint(o, p.indicator)
    ensures var yb := ParseRange(p.rangeYears).value;
            forall o :: o in ds && o.area == Value(p.areaIndex) && yb.lo <= o.year <= yb.hi ==>
              ToPoint(o, p.indicator) in GetPlot(ds, p).value
  {
    var c := Criteria(Value(p.areaIndex), ParseRange(p.rangeYears).value, None);
    var sel := Select(ds, c);
    var pts := GetPlot(ds, p).value;
    assert pts == Points(sel, p.indicator);
    forall pt | pt in pts
      ensures exists o :: o in ds && Matches(o, c) && pt == ToPoint(o, p.indicator)
    {
      var i :| 0 <= i < |pts| && pts[i] == pt;
      assert sel[i] in sel;
    }
    forall o | o in ds && Matches(o, c)
      ensures ToPoint(o, p.indicator) in pts
    {
      var i :| 0 <= i < |sel| && sel[i] == o;
      assert pts[i] == ToPoint(o, p.indicator);
    }
  }

  /** The plot ignores the week range entirely, even a malformed one. */
  lemma PlotIgnoresWeeks(ds: seq<Observation>, p: Params, weeks: string)
    ensures GetPlot(ds, p) == GetPlot(ds, p.(rangeWeeks := weeks))
  {
  }

  /** Whatever the table shows, the plot also draws, in the same order. */
  lemma TableRowsArePlotted(ds: seq<Observation>, p: Params)
    requires GetData(ds, p).Ok?
    ensures GetPlot(ds, p).Ok?
    ensures IsSubseq(Select(ds, TableCriteria(p)), Select(ds, TableCriteria(p).(weeks := None)))
    ensures GetPlot(ds, p).value == Points(Select(ds, TableCriteria(p).(weeks := None)), p.indicator)
  {
    TableWithinPlot(ds, TableCriteria(p));
  }

  /** A stored observation queried by its own area, year and week comes back. */
  lemma QueryFindsOwnRow(ds: seq<Observation>, o: Observation, ind: Indicator)
    requires o in ds && o.area >= 0 && o.year >= 0 && o.week >= 0
    ensures var p := Params(ind, ShowNat(o.area),
                            ShowNat(o.year) + "-" + ShowNat(o.year),
                            ShowNat(o.week) + "-" + ShowNat(o.week));
            GetData(ds, p).Ok? && ToRow(o, ind) in GetData(ds, p).value
  {
    var p := Params(ind, ShowNat(o.area),
                    ShowNat(o.year) + "-" + ShowNat(o.year),
                    ShowNat(o.week) + "-" + ShowNat(o.week));
    ParseRangeShow(o.year, o.year);
    ParseRangeShow(o.week, o.week);
    ParseShowNat(o.area);
    GetDataComplete(ds, p);
  }
}
