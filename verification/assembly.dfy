/** `DataApp.__init__` once the files are on disk: every file is
    normalised and cleaned, and the cleaned frames are concatenated in the
    order the files are listed. Any failure aborts the whole build. */
module Assembly {
  import opened Results
  import opened Records
  import opened Province
  import opened Cleaner

  /** `make_df(path, replacements_dict[find_province_id(path)])`, with the
      arguments evaluated first, left to right. */
  function Batch(file: SourceFile): (r: Result<seq<Observation>>)
    ensures r.Ok? ==> forall o :: o in r.value ==> 1 <= o.area <= 25 && !IsSentinel(o.vhi)
  {
    var id :- FindProvinceId(file.preamble);
    var area :- NormalizeProvince(id);
    MakeDf(file.rows, area)
  }

  /** The list comprehension followed by concatenation, for any per-file
      step: the first failing file aborts it. */
  function Gather<F, T>(files: seq<F>, step: F -> Result<seq<T>>): (r: Result<seq<T>>)
    ensures r.Ok? <==> forall i :: 0 <= i < |files| ==> step(files[i]).Ok?
    ensures r.Err? ==> exists i :: 0 <= i < |files| && step(files[i]) == Err(r.error) &&
                                   forall j :: 0 <= j < i ==> step(files[j]).Ok?
    ensures r.Ok? ==> forall x :: x in r.value ==>
                        exists i :: 0 <= i < |files| && step(files[i]).Ok? && x in step(files[i]).value
  {
    if |files| == 0 then Ok([])
    else
      var first :- step(files[0]);
      var rest :- Gather(files[1..], step);
      Ok(first + rest)
  }

  /** The dataset: `pd.concat` of the cleaned frames, which refuses an
      empty list. */
  function Build(files: seq<SourceFile>): (r: Result<seq<Observation>>)
    ensures |files| == 0 ==> r == Err(NothingToConcat)
    ensures r.Ok? <==> |files| > 0 && forall i :: 0 <= i < |files| ==> Batch(files[i]).Ok?
    ensures r.Err? && |files| > 0 ==>
              exists i :: 0 <= i < |files| && Batch(files[i]) == Err(r.error) &&
                          forall j :: 0 <= j < i ==> Batch(files[j]).Ok?
    ensures r.Ok? ==> forall o :: o in r.value ==> 1 <= o.area <= 25 && !IsSentinel(o.vhi)
  {
    if |files| == 0 then Err(NothingToConcat) else Gather(files, Batch)
  }

  /** A successful batch is the cleaned frame of the file's rows, tagged
      with the region the file's province maps to. */
  lemma BatchSpec(file: SourceFile)
    requires Batch(file).Ok?
    ensures FindProvinceId(file.preamble).Ok?
    ensures FindProvinceId(file.preamble).value in Replacements
    ensures IsCleaned(file.rows, Replacements[FindProvinceId(file.preamble).value], Batch(file).value)
  {
    var id := FindProvinceId(file.preamble).value;
    MakeDfSpec(file.rows, Replacements[id]);
  }

  /** A file fails for lack of a province, an unknown province id, the
      missing label 0, or a Year or Week that does not convert, never for
      an empty frame. */
  lemma BatchErrors(file: SourceFile)
    requires Batch(file).Err?
    ensures Batch(file).error in {NoProvince, MissingLabel0} || Batch(file).error.UnknownProvince? ||
            Batch(file).error.BadYear? || Batch(file).error.BadWeek?
    ensures Batch(file) != Err(EmptyFrame)
  {
    if FindProvinceId(file.preamble).Ok? && NormalizeProvince(FindProvinceId(file.preamble).value).Ok? {
      MakeDfErrors(file.rows, NormalizeProvince(FindProvinceId(file.preamble).value).value);
    }
  }

  /** A file with a province id outside 1..27 aborts with that id. */
  lemma UnknownProvinceAborts(file: SourceFile)
    requires FindProvinceId(file.preamble).Ok?
    requires !(1 <= FindProvinceId(file.preamble).value <= 27)
    ensures Batch(file) == Err(UnknownProvince(FindProvinceId(file.preamble).value))
  {
  }

  lemma {:induction false} GatherAppend<F, T>(a: seq<F>, b: seq<F>, step: F -> Result<seq<T>>)
    ensures Gather(a + b, step).Ok? <==> Gather(a, step).Ok? && Gather(b, step).Ok?
    ensures Gather(a + b, step).Ok? ==>
              Gather(a + b, step).value == Gather(a, step).value + Gather(b, step).value
  {
    if |a| == 0 {
      assert a + b == b;
    } else {
      assert (a + b)[0] == a[0];
      assert (a + b)[1..] == a[1..] + b;
      GatherAppend(a[1..], b, step);
      if Gather(a + b, step).Ok? {
        var x := step(a[0]).value;
        assert Gather(a + b, step).value == x + Gather(a[1..] + b, step).value;
        assert Gather(a, step).value == x + Gather(a[1..], step).value;
      }
    }
  }

  /** Building from two lists of files is building from each and
      concatenating: all-or-nothing, with the files' order kept. */
  lemma BuildAppend(a: seq<SourceFile>, b: seq<SourceFile>)
    requires |a| > 0 && |b| > 0
    ensures Build(a + b).Ok? <==> Build(a).Ok? && Build(b).Ok?
    ensures Build(a + b).Ok? ==> Build(a + b).value == Build(a).value + Build(b).value
  {
    GatherAppend(a, b, Batch);
  }

  lemma GatherSingle<F, T>(file: F, step: F -> Result<seq<T>>)
    ensures Gather([file], step) == step(file)
  {
    assert [file][1..] == [];
    if step(file).Ok? {
      assert step(file).value + [] == step(file).value;
    }
  }

  /** One file builds to its own batch. */
  lemma BuildSingle(file: SourceFile)
    ensures Build([file]) == Batch(file)
  {
    GatherSingle(file, Batch);
  }
}
