/** The entities of the vegetation-health pipeline: one raw data row of a
    downloaded province file, the file itself, and the cleaned weekly
    observation that the dataset is made of. */
module Records {

  /** The value the source export writes into VHI for a missing week. */
  const Sentinel: real := -1.0

  predicate IsSentinel(v: real) {
    v == Sentinel
  }

  /** One data row, split into the eight columns the reader names
      Year, Week, SMN, SMT, VCI, TCI, VHI and empty. Year and Week stay
      text until the cleaner converts them; the indices are numbers. */
  datatype RawRow = RawRow(
    year: string,
    week: string,
    smn: real,
    smt: real,
    vci: real,
    tci: real,
    vhi: real,
    empty: string)

  /** A downloaded file: its first line (which names the source province)
      and the data rows that follow the column-header line. */
  datatype SourceFile = SourceFile(preamble: string, rows: seq<RawRow>)

  /** A cleaned row: exactly the columns Year, Week, VCI, TCI, VHI and area. */
  datatype Observation = Observation(
    year: int,
    week: int,
    vci: real,
    tci: real,
    vhi: real,
    area: int)
}
