/** The application as a whole: the dataset built at start-up and the two
    queries the page runs against it. */
module App {
  import opened Results
  import opened Digits
  import opened Records
  import opened Province
  import opened Cleaner
  import opened Assembly
  import opened Ranges
  import opened Query

  /** Regions 26 and 27 (the two cities) are offered by the selector, but
      no source province maps to them, so both queries come back empty. */
  lemma CityAreasAlwaysEmpty(files: seq<SourceFile>, p: Params)
    requires Build(files).Ok?
    requires IsDigitString(p.areaIndex) && (Value(p.areaIndex) == 26 || Value(p.areaIndex) == 27)
    ensures GetData(Build(files).value, p).Ok? ==> GetData(Build(files).value, p).value == []
    ensures GetPlot(Build(files).value, p).Ok? ==> GetPlot(Build(files).value, p).value == []
  {
    var ds := Build(files).value;
    if ParseRange(p.rangeYears).Ok? {
      var years := ParseRange(p.rangeYears).value;
      AbsentAreaSelectsNothing(ds, Criteria(Value(p.areaIndex), years, None));
      if ParseRange(p.rangeWeeks).Ok? {
        AbsentAreaSelectsNothing(ds, Criteria(Value(p.areaIndex), years, Some(ParseRange(p.rangeWeeks).value)));
      }
    }
  }

  /** The middle row of three is dropped for its sentinel. */
  lemma KeptDropsMiddle(rows: seq<RawRow>)
    requires |rows| == 3
    requires !IsSentinel(rows[0].vhi) && IsSentinel(rows[1].vhi) && !IsSentinel(rows[2].vhi)
    ensures Kept(rows) == [rows[0], rows[2]]
  {
    assert Kept(rows[3..]) == [];
    assert Kept(rows[2..]) == [rows[2]] + Kept(rows[3..]);
    assert Kept(rows[1..]) == Kept(rows[2..]);
  }

  /** A three-row export whose middle week is missing (its VHI is the
      sentinel) and whose last row is the footer yields exactly the first
      week, with its Year freed of the nine-character prefix. */
  lemma OneWeekSurvives(rows: seq<RawRow>, prefix: string, year: string, area: int)
    requires |rows| == 3
    requires |prefix| == PrefixLength && rows[0].year == prefix + year
    requires IsDigitString(year) && IsDigitString(rows[0].week)
    requires !IsSentinel(rows[0].vhi) && IsSentinel(rows[1].vhi) && !IsSentinel(rows[2].vhi)
    ensures MakeDf(rows, area) ==
              Ok([Observation(Value(year), Value(rows[0].week), rows[0].vci, rows[0].tci, rows[0].vhi, area)])
  {
    KeptDropsMiddle(rows);
    var k := Kept(rows);
    StripPrefixRecoversYear(prefix, year);
    assert YearText(k, 0) == year;
    assert Convertible(k);
    MakeDfSpec(rows, area);
    var out := MakeDf(rows, area).value;
    assert |out| == 1;
    assert out[0] == Observation(Value(year), Value(rows[0].week), rows[0].vci, rows[0].tci, rows[0].vhi, area);
    assert out == [out[0]];
  }

  /** End to end: a file naming source province `id` whose rows are as in
      `OneWeekSurvives` builds a dataset of the one week, tagged with the
      region the table assigns to `id`. */
  lemma OneFileDataset(pre: string, ws1: string, ws2: string, digits: string, rest: string,
                       r0: RawRow, r1: RawRow, r2: RawRow, prefix: string, year: string)
    requires 'P' !in pre
    requires forall i :: 0 <= i < |ws1| ==> IsSpace(ws1[i])
    requires forall i :: 0 <= i < |ws2| ==> IsSpace(ws2[i])
    requires IsDigitString(digits) && 1 <= Value(digits) <= 27
    requires |rest| == 0 || !IsDigit(rest[0])
    requires |prefix| == PrefixLength && r0.year == prefix + year
    requires IsDigitString(year) && IsDigitString(r0.week)
    requires !IsSentinel(r0.vhi) && IsSentinel(r1.vhi) && !IsSentinel(r2.vhi)
    ensures Value(digits) in Replacements
    ensures Build([SourceFile(pre + Keyword + ws1 + "=" + ws2 + digits + rest, [r0, r1, r2])]) ==
              Ok([Observation(Value(year), Value(r0.week), r0.vci, r0.tci, r0.vhi, Replacements[Value(digits)])])
  {
    var file := SourceFile(pre + Keyword + ws1 + "=" + ws2 + digits + rest, [r0, r1, r2]);
    FindsPlantedId(pre, ws1, ws2, digits, rest);
    ReplacementsDomain();
    OneWeekSurvives(file.rows, prefix, year, Replacements[Value(digits)]);
    BuildSingle(file);
  }
}
