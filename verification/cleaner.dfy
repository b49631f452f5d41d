/** `make_df`: the data rows of one downloaded file become the cleaned
    observations of one region. The pandas row labels are kept explicit,
    because the Year fix-up reads the row labelled 0, whichever rows the
    sentinel filter removed. */
module Cleaner {
  import opened Results
  import opened Digits
  import opened Records
  import opened Subsequences

  /** The length of the stray text in front of the first Year. */
  const PrefixLength: nat := 9

  /** Python's `text[9:]`: the text without its first nine characters, and
      the empty text when it is shorter than that. */
  function StripPrefix(text: string): (r: string)
    ensures |text| >= PrefixLength ==> text == text[..PrefixLength] + r
    ensures |text| < PrefixLength ==> r == ""
  {
    if |text| >= PrefixLength then text[PrefixLength..] else ""
  }

  /** A year carried behind a nine-character prefix is recovered exactly. */
  lemma StripPrefixRecoversYear(prefix: string, year: string)
    requires |prefix| == PrefixLength
    ensures StripPrefix(prefix + year) == year
  {
    assert (prefix + year)[PrefixLength..] == year;
  }

  /** A data row with the index label pandas gave it. */
  datatype Labelled = Labelled(index: nat, row: RawRow)

  /** The frame `read_csv` builds: rows labelled `start`, `start + 1`, ... */
  function Label(rows: seq<RawRow>, start: nat): (f: seq<Labelled>)
    ensures |f| == |rows|
    ensures forall i :: 0 <= i < |f| ==> f[i].row == rows[i] && f[i].index == start + i
  {
    if |rows| == 0 then [] else [Labelled(start, rows[0])] + Label(rows[1..], start + 1)
  }

  /** `df.drop(df.loc[df['VHI'] == -1].index)`: the rows whose VHI is not
      the sentinel, in order, with their labels. */
  function DropSentinels(f: seq<Labelled>): (r: seq<Labelled>)
    ensures |r| <= |f|
    ensures forall x :: x in r ==> x in f && !IsSentinel(x.row.vhi)
    ensures forall x :: x in f && !IsSentinel(x.row.vhi) ==> x in r
  {
    if |f| == 0 then []
    else (if IsSentinel(f[0].row.vhi) then [] else [f[0]]) + DropSentinels(f[1..])
  }

  /** The position of the first row carrying `label`. */
  function IndexOfLabel(f: seq<Labelled>, index: nat): (r: Option<nat>)
    ensures r.Some? ==> r.value < |f| && f[r.value].index == index &&
                        forall j :: 0 <= j < r.value ==> f[j].index != index
    ensures r.None? ==> forall j :: 0 <= j < |f| ==> f[j].index != index
  {
    if |f| == 0 then None
    else if f[0].index == index then Some(0)
    else match IndexOfLabel(f[1..], index)
      case None => None
      case Some(i) => Some(i + 1)
  }

  function StripYear(x: Labelled): Labelled {
    x.(row := x.row.(year := StripPrefix(x.row.year)))
  }

  /** `df.loc[0, 'Year'] = df.loc[0, 'Year'][9:]`: the read fails when no
      row is labelled 0; otherwise only that row's Year changes. */
  function StripLabel0Year(f: seq<Labelled>): (r: Result<seq<Labelled>>)
    ensures r.Ok? <==> exists i :: 0 <= i < |f| && f[i].index == 0
    ensures r.Err? ==> r.error == MissingLabel0
    ensures r.Ok? ==> exists i :: 0 <= i < |f| && f[i].index == 0 &&
                                  (forall j :: 0 <= j < i ==> f[j].index != 0) &&
                                  r.value == f[i := StripYear(f[i])]
  {
    match IndexOfLabel(f, 0)
    case None => Err(MissingLabel0)
    case Some(i) => Ok(f[i := StripYear(f[i])])
  }

  /** `df.drop(df.index[-1])`: every row but the last; `index[-1]` fails
      on a frame without rows. */
  function DropLastRow(f: seq<Labelled>): (r: Result<seq<Labelled>>)
    ensures r.Ok? <==> |f| > 0
    ensures r.Err? ==> r.error == EmptyFrame
    ensures r.Ok? ==> |r.value| == |f| - 1 && forall i :: 0 <= i < |r.value| ==> r.value[i] == f[i]
  {
    if |f| == 0 then Err(EmptyFrame) else Ok(f[..|f| - 1])
  }

  /** `column.astype(int)`: every text converted, or the first text that
      does not convert reported through `bad`. */
  function ParseColumn(texts: seq<string>, bad: string -> Error): (r: Result<seq<nat>>)
    ensures r.Ok? <==> forall i :: 0 <= i < |texts| ==> IsDigitString(texts[i])
    ensures r.Ok? ==> |r.value| == |texts| &&
                      forall i :: 0 <= i < |texts| ==> IsDigitString(texts[i]) && r.value[i] == Value(texts[i])
    ensures r.Err? ==> exists i :: 0 <= i < |texts| && !IsDigitString(texts[i]) &&
                                   (forall j :: 0 <= j < i ==> IsDigitString(texts[j])) &&
                                   r.error == bad(texts[i])
  {
    if |texts| == 0 then Ok([])
    else match ParseNat(texts[0])
      case None => Err(bad(texts[0]))
      case Some(v) =>
        var rest :- ParseColumn(texts[1..], bad);
        Ok([v] + rest)
  }

  function Years(f: seq<Labelled>): (texts: seq<string>)
    ensures |texts| == |f| && forall i :: 0 <= i < |f| ==> texts[i] == f[i].row.year
  {
    seq(|f|, i requires 0 <= i < |f| => f[i].row.year)
  }

  function Weeks(f: seq<Labelled>): (texts: seq<string>)
    ensures |texts| == |f| && forall i :: 0 <= i < |f| ==> texts[i] == f[i].row.week
  {
    seq(|f|, i requires 0 <= i < |f| => f[i].row.week)
  }

  /** Tagging with the area, converting Year and then Week to integers,
      and dropping SMN, SMT and the empty column. */
  function ToObservations(f: seq<Labelled>, area: int): (r: Result<seq<Observation>>)
    ensures r.Ok? <==> forall i :: 0 <= i < |f| ==> IsDigitString(f[i].row.year) && IsDigitString(f[i].row.week)
    ensures r.Ok? ==> |r.value| == |f| &&
                      forall i :: 0 <= i < |f| ==>
                        IsDigitString(f[i].row.year) && IsDigitString(f[i].row.week) &&
                        r.value[i] == Observation(Value(f[i].row.year), Value(f[i].row.week),
                                                  f[i].row.vci, f[i].row.tci, f[i].row.vhi, area)
    ensures r.Err? ==>
      (exists i :: 0 <= i < |f| && !IsDigitString(f[i].row.year) &&
                   (forall j :: 0 <= j < i ==> IsDigitString(f[j].row.year)) &&
                   r.error == BadYear(f[i].row.year)) ||
      ((forall j :: 0 <= j < |f| ==> IsDigitString(f[j].row.year)) &&
       exists i :: 0 <= i < |f| && !IsDigitString(f[i].row.week) &&
                   (forall j :: 0 <= j < i ==> IsDigitString(f[j].row.week)) &&
                   r.error == BadWeek(f[i].row.week))
  {
    var years :- ParseColumn(Years(f), t => BadYear(t));
    var weeks :- ParseColumn(Weeks(f), t => BadWeek(t));
    Ok(seq(|f|, i requires 0 <= i < |f| =>
      Observation(years[i], weeks[i], f[i].row.vci, f[i].row.tci, f[i].row.vhi, area)))
  }

  /** `make_df(file_path, norm_province_id)` on the data rows of the file. */
  function MakeDf(rows: seq<RawRow>, area: int): (r: Result<seq<Observation>>)
    ensures r.Ok? ==> |r.value| < |rows|
    ensures r.Ok? ==> forall o :: o in r.value ==> o.area == area && !IsSentinel(o.vhi)
  {
    var kept := DropSentinels(Label(rows, 0));
    var stripped :- StripLabel0Year(kept);
    var trimmed :- DropLastRow(stripped);
    ToObservations(trimmed, area)
  }

  // ---------------------------------------------------------------------
  // The cleaned frame described directly in terms of the file's rows.

  /** The non-sentinel rows of the file, in file order. */
  function Kept(rows: seq<RawRow>): (k: seq<RawRow>)
    ensures |k| <= |rows|
    ensures forall x :: x in k ==> x in rows && !IsSentinel(x.vhi)
    ensures forall x :: x in rows && !IsSentinel(x.vhi) ==> x in k
  {
    if |rows| == 0 then []
    else (if IsSentinel(rows[0].vhi) then [] else [rows[0]]) + Kept(rows[1..])
  }

  /** The kept rows are the file's rows in their original order. */
  lemma {:induction false} KeptIsSubseq(rows: seq<RawRow>)
    ensures IsSubseq(Kept(rows), rows)
  {
    if |rows| > 0 {
      KeptIsSubseq(rows[1..]);
      var k := Kept(rows);
      if !IsSentinel(rows[0].vhi) {
        assert k[0] == rows[0] && k[1..] == Kept(rows[1..]);
      } else {
        assert k == Kept(rows[1..]);
      }
    }
  }

  /** The sentinel filter keeps every non-sentinel row as often as it
      occurs and drops every sentinel row. */
  lemma {:induction false} KeptCounts(rows: seq<RawRow>, x: RawRow)
    ensures multiset(Kept(rows))[x] == if IsSentinel(x.vhi) then 0 else multiset(rows)[x]
  {
    if |rows| > 0 {
      KeptCounts(rows[1..], x);
      assert rows == [rows[0]] + rows[1..];
      assert multiset(rows) == multiset([rows[0]]) + multiset(rows[1..]);
    }
  }

  /** The row labelled 0 (the first data row) survives the sentinel filter. */
  predicate Label0Kept(rows: seq<RawRow>) {
    |rows| > 0 && !IsSentinel(rows[0].vhi)
  }

  /** The Year text the conversion sees for the `j`-th kept row: the first
      one loses its prefix, every other one is untouched. */
  function YearText(k: seq<RawRow>, j: nat): string
    requires j < |k|
  {
    if j == 0 then StripPrefix(k[0].year) else k[j].year
  }

  /** Every Year and Week text that reaches the conversion is a digit
      string; the last kept row never reaches it. */
  predicate Convertible(k: seq<RawRow>) {
    forall j :: 0 <= j < |k| - 1 ==> IsDigitString(YearText(k, j)) && IsDigitString(k[j].week)
  }

  /** `out` is the cleaned frame of `rows` for region `area`: one
      observation per kept row except the last, in order, carrying the
      converted Year and Week, the three indices and the area. */
  predicate IsCleaned(rows: seq<RawRow>, area: int, out: seq<Observation>) {
    CleanedFrom(Kept(rows), area, out)
  }

  predicate CleanedFrom(k: seq<RawRow>, area: int, out: seq<Observation>) {
    |k| >= 1 && |out| == |k| - 1 &&
    forall j :: 0 <= j < |out| ==>
      IsDigitString(YearText(k, j)) && IsDigitString(k[j].week) &&
      out[j] == Observation(Value(YearText(k, j)), Value(k[j].week), k[j].vci, k[j].tci, k[j].vhi, area)
  }

  /** `e` names the first Year text that does not convert or, when every
      Year converts, the first Week text that does not. */
  predicate ReportsFirstBad(k: seq<RawRow>, e: Error) {
    (exists j :: 0 <= j < |k| - 1 && !IsDigitString(YearText(k, j)) &&
                 (forall i :: 0 <= i < j ==> IsDigitString(YearText(k, i))) &&
                 e == BadYear(YearText(k, j))) ||
    ((forall i :: 0 <= i < |k| - 1 ==> IsDigitString(YearText(k, i))) &&
     exists j :: 0 <= j < |k| - 1 && !IsDigitString(k[j].week) &&
                 (forall i :: 0 <= i < j ==> IsDigitString(k[i].week)) &&
                 e == BadWeek(k[j].week))
  }

  /** One step of labelling followed by the sentinel filter. */
  lemma LabelledKeptStep(rows: seq<RawRow>, start: nat)
    requires |rows| > 0
    ensures DropSentinels(Label(rows, start)) ==
              (if IsSentinel(rows[0].vhi) then [] else [Labelled(start, rows[0])]) +
              DropSentinels(Label(rows[1..], start + 1))
    ensures Kept(rows) == (if IsSentinel(rows[0].vhi) then [] else [rows[0]]) + Kept(rows[1..])
  {
    var f := Label(rows, start);
    assert f == [Labelled(start, rows[0])] + Label(rows[1..], start + 1);
    assert f[1..] == Label(rows[1..], start + 1);
  }

  /** Labelling and the sentinel filter commute with dropping labels: the
      labelled survivors are the kept rows, in order. */
  lemma {:induction false} LabelledKeptRows(rows: seq<RawRow>, start: nat)
    ensures |DropSentinels(Label(rows, start))| == |Kept(rows)|
    ensures forall i :: 0 <= i < |Kept(rows)| ==> DropSentinels(Label(rows, start))[i].row == Kept(rows)[i]
  {
    if |rows| > 0 {
      LabelledKeptStep(rows, start);
      LabelledKeptRows(rows[1..], start + 1);
      var d, k := DropSentinels(Label(rows, start)), Kept(rows);
      var d', k' := DropSentinels(Label(rows[1..], start + 1)), Kept(rows[1..]);
      if IsSentinel(rows[0].vhi) {
        assert d == d' && k == k';
      } else {
        forall i | 0 <= i < |k|
          ensures d[i].row == k[i]
        {
          if i > 0 {
            assert d[i] == d'[i - 1] && k[i] == k'[i - 1];
          }
        }
      }
    }
  }

  /** Every surviving label is at least `start`, and `start` itself
      survives, in front, exactly when the first row does. */
  lemma {:induction false} LabelledKeptLabels(rows: seq<RawRow>, start: nat)
    ensures forall i :: 0 <= i < |DropSentinels(Label(rows, start))| ==>
              DropSentinels(Label(rows, start))[i].index >= start
    ensures forall i :: 0 <= i < |DropSentinels(Label(rows, start))| ==>
              (DropSentinels(Label(rows, start))[i].index == start <==> i == 0 && Label0Kept(rows))
  {
    if |rows| > 0 {
      LabelledKeptStep(rows, start);
      LabelledKeptLabels(rows[1..], start + 1);
    }
  }

  /** The frame `t` that reaches the conversion holds, row by row, the
      fields of the kept rows `k` but the last, with the first Year stripped. */
  predicate Aligned(t: seq<Labelled>, k: seq<RawRow>) {
    |k| >= 1 && |t| == |k| - 1 &&
    forall j :: 0 <= j < |t| ==>
      t[j].row.year == YearText(k, j) && t[j].row.week == k[j].week &&
      t[j].row.vci == k[j].vci && t[j].row.tci == k[j].tci && t[j].row.vhi == k[j].vhi
  }

  /** When row 0 survives, the cleaner is the conversion of an aligned frame. */
  lemma MakeDfFrame(rows: seq<RawRow>, area: int) returns (t: seq<Labelled>)
    requires Label0Kept(rows)
    ensures MakeDf(rows, area) == ToObservations(t, area)
    ensures Aligned(t, Kept(rows))
  {
    var kept := DropSentinels(Label(rows, 0));
    var k := Kept(rows);
    LabelledKeptRows(rows, 0);
    LabelledKeptLabels(rows, 0);
    assert kept[0].index == 0;
    var stripped := kept[0 := StripYear(kept[0])];
    assert StripLabel0Year(kept) == Ok(stripped);
    t := stripped[..|stripped| - 1];
    assert DropLastRow(stripped) == Ok(t);
    forall j | 0 <= j < |t|
      ensures t[j].row.year == YearText(k, j) && t[j].row.week == k[j].week
      ensures t[j].row.vci == k[j].vci && t[j].row.tci == k[j].tci && t[j].row.vhi == k[j].vhi
    {
      assert t[j] == stripped[j];
      assert kept[j].row == k[j];
    }
  }

  lemma AlignedConverts(t: seq<Labelled>, k: seq<RawRow>, area: int)
    requires Aligned(t, k)
    ensures ToObservations(t, area).Ok? <==> Convertible(k)
    ensures ToObservations(t, area).Ok? ==> CleanedFrom(k, area, ToObservations(t, area).value)
  {
  }

  lemma AlignedFirstBadYear(t: seq<Labelled>, k: seq<RawRow>, i: nat)
    requires Aligned(t, k)
    requires i < |t| && !IsDigitString(t[i].row.year)
    requires forall j :: 0 <= j < i ==> IsDigitString(t[j].row.year)
    ensures ReportsFirstBad(k, BadYear(t[i].row.year))
  {
    assert t[i].row.year == YearText(k, i);
    assert forall j :: 0 <= j < i ==> IsDigitString(YearText(k, j)) by {
      forall j | 0 <= j < i
        ensures IsDigitString(YearText(k, j))
      {
        assert t[j].row.year == YearText(k, j);
      }
    }
  }

  lemma AlignedFirstBadWeek(t: seq<Labelled>, k: seq<RawRow>, i: nat)
    requires Aligned(t, k)
    requires forall j :: 0 <= j < |t| ==> IsDigitString(t[j].row.year)
    requires i < |t| && !IsDigitString(t[i].row.week)
    requires forall j :: 0 <= j < i ==> IsDigitString(t[j].row.week)
    ensures ReportsFirstBad(k, BadWeek(t[i].row.week))
  {
    assert t[i].row.week == k[i].week;
    assert forall j :: 0 <= j < |k| - 1 ==> IsDigitString(YearText(k, j)) by {
      forall j | 0 <= j < |k| - 1
        ensures IsDigitString(YearText(k, j))
      {
        assert t[j].row.year == YearText(k, j);
      }
    }
    assert forall j :: 0 <= j < i ==> IsDigitString(k[j].week) by {
      forall j | 0 <= j < i
        ensures IsDigitString(k[j].week)
      {
        assert t[j].row.week == k[j].week;
      }
    }
  }

  lemma AlignedReportsFirstBad(t: seq<Labelled>, k: seq<RawRow>, area: int)
    requires Aligned(t, k)
    requires ToObservations(t, area).Err?
    ensures ReportsFirstBad(k, ToObservations(t, area).error)
  {
    var e := ToObservations(t, area).error;
    if exists i :: 0 <= i < |t| && !IsDigitString(t[i].row.year) &&
                   (forall j :: 0 <= j < i ==> IsDigitString(t[j].row.year)) && e == BadYear(t[i].row.year) {
      var i :| 0 <= i < |t| && !IsDigitString(t[i].row.year) &&
               (forall j :: 0 <= j < i ==> IsDigitString(t[j].row.year)) && e == BadYear(t[i].row.year);
      AlignedFirstBadYear(t, k, i);
    } else {
      var i :| 0 <= i < |t| && !IsDigitString(t[i].row.week) &&
               (forall j :: 0 <= j < i ==> IsDigitString(t[j].row.week)) && e == BadWeek(t[i].row.week);
      AlignedFirstBadWeek(t, k, i);
    }
  }

  /** The cleaner, stated against the file's rows: it fails with a missing
      row 0 exactly when the first row is a sentinel (or there is none),
      fails on a conversion exactly when some surviving Year or Week text
      is not a number and then names the first, and otherwise returns the
      kept rows minus the last, with only the first Year stripped. */
  lemma MakeDfSpec(rows: seq<RawRow>, area: int)
    ensures MakeDf(rows, area).Ok? <==> Label0Kept(rows) && Convertible(Kept(rows))
    ensures !Label0Kept(rows) ==> MakeDf(rows, area) == Err(MissingLabel0)
    ensures MakeDf(rows, area).Ok? ==> IsCleaned(rows, area, MakeDf(rows, area).value)
    ensures MakeDf(rows, area).Err? && Label0Kept(rows) ==>
              ReportsFirstBad(Kept(rows), MakeDf(rows, area).error)
  {
    if !Label0Kept(rows) {
      var kept := DropSentinels(Label(rows, 0));
      LabelledKeptLabels(rows, 0);
      assert StripLabel0Year(kept) == Err(MissingLabel0);
    } else {
      var t := MakeDfFrame(rows, area);
      AlignedConverts(t, Kept(rows), area);
      if MakeDf(rows, area).Err? {
        AlignedReportsFirstBad(t, Kept(rows), area);
      }
    }
  }

  /** `make_df` fails only by the missing label 0 or a Year or Week that
      does not convert: once label 0 is found the frame is not empty, so
      dropping its last row cannot fail. */
  lemma MakeDfErrors(rows: seq<RawRow>, area: int)
    requires MakeDf(rows, area).Err?
    ensures MakeDf(rows, area).error.MissingLabel0? || MakeDf(rows, area).error.BadYear? ||
            MakeDf(rows, area).error.BadWeek?
    ensures MakeDf(rows, area) != Err(EmptyFrame)
  {
    MakeDfSpec(rows, area);
  }
}
