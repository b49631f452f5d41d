# Vegetation-health dataset: ingest and query, modelled in Dafny

The application downloads one NOAA vegetation-health export per Ukrainian
province. It cleans each export into a frame of weekly observations and tags
the frame with a region number. It concatenates the frames into one dataset
and serves two queries over it: a table and a plot. This project models that
pipeline once the files are on disk.

- `results.dfy` (`Results`): the `Option` and `Result` types. `Error` names
  each failure this model keeps: a missing row label 0, an empty frame, a
  Year or Week text that does not convert, a first line without a province,
  an unknown province id, nothing to concatenate, a malformed range, and a
  malformed area. An empty frame belongs to the step that drops the last
  row on its own. `make_df` never reaches that step with an empty frame,
  because reading label 0 fails first (`Cleaner.MakeDfErrors`). The
  failures the model does not keep are listed under "Left out".
- `digits.dfy` (`Digits`): `int()` on decimal digit strings and its inverse
  `str()`.
- `records.dfy` (`Records`): a raw export row (eight fields, the first two
  kept as text), a source file (its first line plus its rows), the cleaned
  observation, and the `-1` sentinel.
- `province.dfy` (`Province`):
  - `find_province_id`, the leftmost match of `Province\s*=\s*(\d+)` in the
    first line;
  - the province-to-region table `replacements_dict`.
- `cleaner.dfy` (`Cleaner`): `make_df`, written as its pandas steps:
  - label the rows;
  - drop sentinel rows;
  - strip nine characters from the Year of the row labelled 0;
  - drop the last row;
  - tag with the area;
  - convert Year, then Week.

  The module also holds a row-level reference description of the result
  (`Kept`, `IsCleaned`, `ReportsFirstBad`) and proves the two agree.
- `assembly.dfy` (`Assembly`): `DataApp.__init__` once the files exist.
  - Each file goes through `find_province_id`, the table and `make_df`.
  - The frames are concatenated in file order.
  - Any failure aborts the whole build.
  - An empty list is refused, as `pd.concat` refuses it.
- `ranges.dfy` (`Ranges`): `parse_range`, which splits on `-` and needs
  exactly two integer parts.
- `query.dfy` (`Query`): `get_data` and `get_plot`.
  - Both filter by area and by an inclusive year range.
  - The table also filters by an inclusive week range; the plot never reads
    the week range.
  - Both project the chosen indicator.
- `subsequences.dfy` (`Subsequences`): order-preserving sub-sequences, used
  to state that the filters keep dataset order.
- `app.dfy` (`App`): end-to-end statements about a built dataset.

Two facts about the code shape several of the properties below:

- The table in `lab3.py:57-59` is not a bijection. Ids 11 and 12 both map
  to 9, ids 4 and 20 both map to 25, and regions 26 and 27 are never
  produced.
- `parse_range` (`lab3/lab3.py:182-184`) accepts a start above the end.
  The filter then selects nothing.

## Model

| member | source | states |
|---|---|---|
| Digits.ShowValue | lab3/lab3.py:183 | `int()` and `str()` are inverse in this direction too: rendering the value of a digit string without a leading zero (or the single digit `0`) gives back the same string |
| Digits.ParseShowNat | lab3/lab3.py:183 | reading back the decimal rendering of any natural number gives that number |
| Province.FindProvinceId | lab3.py:52-54 | the result is the value of a match at some position with no match at any earlier position (leftmost match); the result is NoProvince exactly when the pattern matches nowhere, which Python reports as calling `.group` on `None` |
| Province.FindsPlantedId | lab3.py:54 | a first line of the form `Province`, whitespace, `=`, whitespace, digits yields exactly those digits' value, when nothing before it contains `P` and the digit run is maximal |
| Province.MatchShape | lab3.py:54 | conversely, a text the pattern matches at its start is `Province`, whitespace, `=`, whitespace, a maximal digit run and the rest, and the match is that digit run's value |
| Province.NoKeywordNoProvince | lab3.py:54 | a first line without the letter `P` yields NoProvince |
| Province.NormalizeProvince | lab3.py:57-59 | the lookup succeeds exactly for ids 1..27, always yields a region in 1..25, and otherwise fails with the id that is missing (`KeyError`) |
| Province.ReplacementsDomain | lab3.py:57-59 | the table's keys are exactly 1..27 |
| Province.ReplacementsRange | lab3.py:57-59 | the table's values are exactly 1..25: every region up to 25 is reached and 26, 27 never are |
| Province.ReplacementsNotInjective | lab3.py:57-59 | ids 11 and 12 share region 9, and ids 4 and 20 share region 25, so the table has no inverse |
| Ranges.Split | lab3/lab3.py:183 | `r.split('-')` always yields at least one part, and no part contains a hyphen |
| Ranges.JoinSplit | lab3/lab3.py:183 | splitting on `-` and joining with `-` gives back the text |
| Ranges.SplitJoin | lab3/lab3.py:183 | splitting the join of hyphen-free parts gives back the parts |
| Ranges.ParseRange | lab3/lab3.py:182-184 | every failure reports the range text itself |
| Ranges.ParseRangeOfDigits | lab3/lab3.py:182-184 | two digit strings joined by one hyphen parse to their two values, in order |
| Ranges.ParseRangeSound | lab3/lab3.py:182-184 | a range parses only if it is two digit strings joined by one hyphen, and its bounds are their values |
| Ranges.ParseRangeShow | lab3/lab3.py:182-184 | rendering two naturals as `lo-hi` and parsing gives back the same bounds |
| Ranges.LeadingHyphenRejected | lab3/lab3.py:182-184 | a text starting with `-` (such as `-5-3`) never parses: the part before the first hyphen is empty, so no negative start is possible |
| Ranges.ReversedRangeAccepted | lab3/lab3.py:182-184 | a range whose start exceeds its end is accepted as written, with no reordering |
| Cleaner.StripPrefix | lab3.py:33 | `text[9:]`: a text of nine or more characters is its first nine characters followed by the result, and a shorter text gives the empty text |
| Cleaner.StripPrefixRecoversYear | lab3.py:33 | a year behind any nine-character prefix is recovered exactly by `text[9:]` |
| Cleaner.Label | lab3.py:31 | the frame read from the rows holds them in order, labelled consecutively from the starting label |
| Cleaner.DropSentinels | lab3.py:32 | the kept rows are exactly the rows whose VHI is not the sentinel, with their labels |
| Cleaner.KeptIsSubseq | lab3.py:32 | the rows that survive the sentinel filter keep the file's order |
| Cleaner.KeptCounts | lab3.py:32 | the sentinel filter keeps each row that is not a sentinel row as many times as it occurs, and drops every sentinel row |
| Cleaner.StripLabel0Year | lab3.py:33 | succeeds exactly when some row is labelled 0, and changes only the Year of the first such row; otherwise fails with MissingLabel0 |
| Cleaner.DropLastRow | lab3.py:34 | removes exactly the last row and keeps the rest in order; on a frame without rows it fails with EmptyFrame |
| Cleaner.ParseColumn | lab3.py:36-37 | a column converts exactly when every text is a digit string, element by element; otherwise the first text that does not convert is reported |
| Cleaner.ToObservations | lab3.py:35-38 | each observation carries the row's converted Year and Week, its VCI, TCI and VHI, and the area; Years are converted before Weeks, so a bad Year is reported before any bad Week |
| Cleaner.MakeDf | lab3.py:29-40 | a cleaned frame has fewer rows than the file, every observation carries the given area, and no observation has the sentinel VHI |
| Cleaner.MakeDfSpec | lab3.py:29-40 | `make_df` succeeds exactly when the first row survives the sentinel filter and every kept row except the last converts. It fails with MissingLabel0 when the first row is a sentinel row. On success, the result is one observation per kept row except the last, in order, with the first Year freed of its prefix. On any other failure it reports the first text that does not convert |
| Cleaner.MakeDfErrors | lab3.py:29-40 | `make_df` fails only with the missing label 0 or a Year or Week that does not convert; once label 0 is read the frame has a row, so dropping the last row never fails with EmptyFrame |
| Assembly.Batch | lab3/lab3.py:155 | each file's observations carry a region in 1..25 and no sentinel VHI |
| Assembly.BatchSpec | lab3/lab3.py:155 | a successful file is the cleaned frame of its rows, tagged with the region the table gives its province id |
| Assembly.BatchErrors | lab3/lab3.py:155 | a file fails only for lack of a province, an unknown province id, the missing label 0, or a Year or Week that does not convert; never for an empty frame |
| Assembly.UnknownProvinceAborts | lab3/lab3.py:155 | a file whose province id is outside 1..27 aborts with that id |
| Assembly.Gather | lab3/lab3.py:155 | the comprehension succeeds exactly when every file does; otherwise it reports the first failing file's error; every row it yields comes from some file |
| Assembly.Build | lab3/lab3.py:155 | the dataset exists exactly when there is at least one file and every file succeeds. It reports the first failing file's error, or NothingToConcat for no files. Every observation has a region in 1..25 and no sentinel VHI |
| Assembly.BuildAppend | lab3/lab3.py:155 | building from two lists of files succeeds exactly when both do, and gives the two datasets concatenated in order |
| Assembly.BuildSingle | lab3/lab3.py:155 | one file builds to that file's own frame |
| Query.Select | lab3/lab3.py:161-165 | the mask keeps exactly the observations of the area whose Year and, when given, Week lie within the inclusive bounds |
| Query.SelectIsSubseq | lab3/lab3.py:161-165 | the selection keeps dataset order |
| Query.SelectCounts | lab3/lab3.py:161-165 | every matching observation is kept as many times as it occurs, and no other is kept |
| Query.SelectAppend | lab3/lab3.py:161-165 | filtering concatenated frames is concatenating the filtered frames |
| Query.TableWithinPlot | lab3/lab3.py:161-175 | dropping the week bound only adds rows: the table's selection is an ordered sub-sequence of the plot's |
| Query.ReversedBoundsSelectNothing | lab3/lab3.py:163-164 | `between` with start above end selects nothing |
| Query.AbsentAreaSelectsNothing | lab3/lab3.py:162 | an area that no observation carries selects nothing |
| Query.Rows | lab3/lab3.py:167 | the projection has one row per selected observation, in order, each holding that observation's Year, Week and the chosen indicator's reading |
| Query.Points | lab3.py:172 | the data handed to the line plot has one point per selected observation, in order, each holding its Year and the chosen indicator's reading |
| Query.RowsKeepSubseq | lab3/lab3.py:167 | projecting to Year, Week and the indicator keeps ordered sub-sequences |
| Query.AreaOf | lab3/lab3.py:162 | the area converts exactly when it is a digit string, to its value; otherwise it fails with BadArea naming the text |
| Query.GetData | lab3/lab3.py:157-167 | the table succeeds exactly when both ranges and the area parse. Errors are reported in evaluation order: the year range, then the week range, then the area |
| Query.GetDataSound | lab3/lab3.py:157-167 | every table row is the projection of an observation of the requested area whose Year and Week lie within the inclusive bounds |
| Query.GetDataComplete | lab3/lab3.py:157-167 | every observation of the requested area within both inclusive bounds appears in the table |
| Query.GetDataOrdered | lab3/lab3.py:157-167 | the table's rows come in dataset order |
| Query.GetPlot | lab3.py:164-173 | the plot's data exists exactly when the year range and the area parse, and errors are reported year range first, then area; the week range plays no part |
| Query.GetPlotExact | lab3.py:164-170 | the plot's points are exactly the observations of the requested area whose Year lies within the inclusive bounds, whatever their Week |
| Query.PlotIgnoresWeeks | lab3.py:164-170 | changing the week range, even to malformed text, never changes the plot's data |
| Query.TableRowsArePlotted | lab3.py:152-173 | whenever the table succeeds the plot does too, and every observation in the table is also plotted, in the same order |
| Query.QueryFindsOwnRow | lab3/lab3.py:157-167 | querying a stored observation by its own area, year and week returns its row |
| App.CityAreasAlwaysEmpty | lab3.py:57-59 | the selector offers regions 26 and 27. No source province maps to them, so both queries on a built dataset return nothing for those areas |
| App.OneWeekSurvives | lab3.py:29-40 | a three-row export whose middle row is a sentinel row and whose last row is the footer yields exactly its first week, with the year freed of its prefix |
| App.OneFileDataset | lab3/lab3.py:155 | a single file naming province `id` whose rows are as above builds a one-observation dataset tagged with the table's region for `id` |

## Left out

- File and network I/O is not modelled. That covers `check_folder`, the download in the module-level `get_data` (URL, timestamped file name) and opening files. A file is given as its first line plus its rows.
- `find_paths` is not modelled, because the order of `os.walk` is up to the operating system. `Assembly.Build` takes the files in whatever order it is handed them.
- The tokenisation inside `read_csv` is not modelled: `header=1`, comma splitting, the column names. The model receives the rows already split into the eight named fields.
- Digits.ParseNat: Python's `int()` also accepts surrounding whitespace, a sign, underscores between digits and non-ASCII decimal digits. The model admits only non-empty ASCII digit strings. So `Ranges.ParseRange`, `Query.AreaOf` and `Cleaner.ParseColumn` reject a few texts that Python would convert.
- Province.FindProvinceId: `\s` and `\d` in a Python 3 string pattern also match non-ASCII whitespace and digits. The model's `IsSpace` covers the ASCII characters `\s` matches: space, tab, line feed, carriage return, vertical tab, form feed, and the four separators U+001C to U+001F. Its `IsDigit` is ASCII only.
- Floating point is not modelled. The three indices are exact reals and NaN is not modelled. The sentinel test is exact equality with `-1`, as the source's `== -1` is.
- Cleaner.StripLabel0Year: the model assumes pandas reads the Year column as text. That holds for the exports, whose first Year carries the nine-character prefix. If every Year field were a plain integer, pandas would type the column as integers, and line 33 would raise `TypeError`; the model strips the text instead. An empty Year on the row labelled 0 is NaN in pandas and raises the same way; the model strips the empty text to itself instead.
- Cleaner.ParseColumn: `astype(int)` converts to 64-bit integers and raises `OverflowError` for a value of 2^63 or more. The model converts every digit string to an unbounded natural number. Years and weeks in the exports are at most four digits long.
- Cleaner.ToObservations: pandas may read the Week column as floats because the footer row leaves it empty. `astype(int)` then truncates any finite number, so a Week of `2.5`, `1e1` or `3.` becomes 2, 10 or 3. The model keeps Week as text and reports BadWeek for such texts. It agrees with pandas only when every Week text that reaches the conversion is a digit string; the float truncation is not modelled.
- Query.GetPlot: the second copy of the program (`lab3/lab3.py:178`) also sets the plot title from the `regions` dictionary. That lookup raises `KeyError` for an area outside 1..27, and the model does not include it. The model follows `lab3.py:164-173`, which has no title.
- The drawing is not modelled. The model stops at the points handed to `sns.lineplot`; the line plot's aggregation of repeated years is not modelled.
- The `regions` name dictionary, the page's inputs, outputs, tabs and controls, and `app.launch()` are user interface with no logic of their own.
- The indicator is an enumeration of the three columns the selector offers. Python would raise `KeyError` for a name that is not a column of the frame. Other column names of the frame, such as `Year`, `Week` or `area`, would be accepted by Python but are not modelled.
- The row labels of the concatenated dataset are not modelled. They repeat across files, and neither query reads them.
- `lab5.py` is not part of this model.
