/**
 `save_to_hdf5(data, filename)`: open the output file for writing, create the
 planned datasets one after another, close the file when the `with` block
 ends, and report whether every step worked. Whether h5py opens the file,
 whether each `create_dataset` (with its `np.array` construction) succeeds,
 and whether closing (flushing) the file succeeds are given as oracles.
 */
module Save {
  import opened Values
  import opened Layout

  /** True when `save_to_hdf5` returns True: the file opens, every planned
      dataset is created, and the file closes without an error. */
  predicate Saves(data: Value, opens: bool, creates: Dataset -> bool, closes: bool) {
    opens && (forall i :: 0 <= i < |Plan(data)| ==> creates(Plan(data)[i])) && closes
  }

  /** Returns whether the save succeeded, whether the output file now exists,
      and the datasets created in it. The first failing step ends the write;
      the datasets created before it stay in the file. A failure to close
      comes after every dataset was created. */
  method SaveToHdf5(data: Value, opens: bool, creates: Dataset -> bool, closes: bool)
    returns (ok: bool, created: bool, written: seq<Dataset>)
    ensures ok <==> Saves(data, opens, creates, closes)
    ensures created <==> opens
    ensures !opens ==> written == []
    ensures |written| <= |Plan(data)| && written == Plan(data)[..|written|]
    ensures forall i :: 0 <= i < |written| ==> creates(written[i])
    ensures opens && |written| < |Plan(data)| ==> !creates(Plan(data)[|written|])
    ensures ok ==> written == Plan(data)
    ensures opens && !closes ==> !ok
  {
    ok, created, written := false, false, [];
    if !opens {
      return;
    }
    created := true;
    var plan := Plan(data);
    var i := 0;
    while i < |plan|
      invariant 0 <= i <= |plan|
      invariant written == plan[..i]
      invariant forall j :: 0 <= j < i ==> creates(plan[j])
    {
      if !creates(plan[i]) {
        return;
      }
      written := written + [plan[i]];
      i := i + 1;
    }
    ok := closes;
  }
}
