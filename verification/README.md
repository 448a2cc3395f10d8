# HDF5 batch converter — Dafny model

This project models `data/convert.py`, a script that turns every pickle
(`.pkl`) file in a directory into an HDF5 (`.hdf5`) file. The model has
three parts.

- **The normaliser** `convert_to_hdf5_type`. It rewrites a decoded object
  graph so that every leaf is a scalar, a string, bytes or an array. Scalars, strings, bytes and numpy
  arrays pass through unchanged. Lists are mapped item by item. Dict values
  are mapped under the same keys. Anything else becomes `str(obj)`.
- **The dataset layout of `save_to_hdf5`.** It decides which datasets a
  record produces, and the write loop that creates them one by one.
- **The batch driver `batch_convert_to_hdf5`.** It covers:
  - the `.pkl` filter;
  - the output name, computed with `os.path.splitext`;
  - skipping a file whose output already exists;
  - isolating a failure to its own file;
  - the success counter and the reported total.

Files and modules:

- `values.dfy` — module `Values`: the object graph and its leaves in
  depth-first order.
- `normalize.dfy` — module `Normalizer`: the normaliser and its properties.
- `layout.dfy` — module `Layout`: the datasets planned for a record.
- `save.dfy` — module `Save`: the write loop of `save_to_hdf5`.
- `paths.dfy` — module `Paths`: the `.pkl` filter and `posixpath.splitext`.
- `batch.dfy` — module `Batch`: the driver loop.

The driver loop is also written as a pure function (`Run`, built from
`Step`), and the method is proved equal to it.

The outside world becomes parameters:

- the directory listing is a `seq<string>`;
- the output directory is the `set<string>` of file names it holds;
- `pickle.load` is an oracle per input name (a value, or unreadable);
- `h5py.File(..., 'w')` is an oracle per output name (opens, or fails);
- `create_dataset` together with its `np.array(...)` call is an oracle per
  (output name, dataset);
- closing (flushing) the file when the `with` block ends is an oracle per
  output name.

The model fixes what each dataset is handed, not whether h5py accepts it.
Whether h5py takes a given payload (a 0-d array with gzip compression, say,
or numpy's fixed-width string type) is left entirely to the `create_dataset`
oracle.

`Value.Other` carries the text `str(obj)` would give, so that text stays
opaque. `Float` carries an opaque 64-bit pattern.

Behaviour the proofs bring out:

- Arrays are never looked into. An object array whose cells hold
  unrecognised objects is handed to `create_dataset` unchanged (`Normalize`
  fixes every `NdArray`, and its payload is `Verbatim`). Whether HDF5 can
  then store it is up to the `create_dataset` oracle.
- Python `bool` is an `int`, so it passes through. numpy integer scalars are
  not Python `int`s, so they become strings (`Other`).
- An output file exists as soon as h5py opens it. A save that then fails
  still leaves that partial file behind, and any later run skips the input
  (`Step`, `ProcessedOutputPresent`, `RerunIsNoOp`).
- Two selected names can share one output name, for example `..pkl` and
  `..pkl.pkl` (`OutputNamesCanCollide`). The second of them is skipped when
  the first left its output behind: converted, or opened and then failed.
  For ordinary names the output name is one-to-one (`OutputNameInjective`).
- A file that fails to load, or whose output never opens, changes no other
  file's outcome (`FailureIsolated`). A save that fails after opening its
  file is not isolated in this way: its partial file makes a later file with
  the same output name be skipped (`OpenedSaveFailureNotIsolated`).
- The reported total is `len(files)`, the number of selected files, skipped
  ones included (data/convert.py:80).
- A value that is not an array is handed to `create_dataset` as `np.array(converted)`
  (data/convert.py:28, 33). This is not always a one-element array: a list
  of three numbers gives a three-element array.
- With no `.pkl` files the function returns before the summary line
  (data/convert.py:51-53). The model reports this as `Report.NoPklFiles`.

## Model

| member | source | states |
|---|---|---|
| Normalizer.Normalize | data/convert.py:7-17 | The result has no unrecognised object outside an array. Scalars, strings, bytes and arrays are returned as they are. Any other object becomes its string. A list stays a list, a dict stays a dict, and the number of children is kept. |
| Normalizer.ListElementwise | data/convert.py:12-13 | A list becomes a list of the same length whose item i is the normalisation of input item i. |
| Normalizer.ListConcat | data/convert.py:12-13 | Normalising a concatenation of lists concatenates the normalised lists, so order is kept. |
| Normalizer.DictKeysKept | data/convert.py:14-15 | A dict keeps exactly its keys in the same order, and each value is replaced by its normalisation. |
| Normalizer.FixedPointIffNormalized | data/convert.py:7-17 | A value is left unchanged exactly when it has no unrecognised object outside an array. Both directions are proved. |
| Normalizer.Idempotent | data/convert.py:7-17 | Normalising twice gives the same result as normalising once. |
| Normalizer.LeavesRewritten | data/convert.py:7-17 | The result has the same shape as the input (`SameShape`): the same nesting, the same container kinds and child counts, and the same dict keys in the same order. The depth-first leaves of the result are the input's leaves, each mapped on its own, with unrecognised objects turned into strings. |
| Normalizer.NormalizedLeafKinds | data/convert.py:8-17 | Every leaf of a normalised value is a scalar, a string, bytes or an array. |
| Layout.EntryPayload | data/convert.py:24-28 | The payload for one dict value is an array, or a normalised value that is not an array. An array is handed to `create_dataset` as it is; any other value is normalised and handed to `np.array`. |
| Layout.Plan | data/convert.py:22-33 | A dict record gets one dataset per key, named by the key, in key order. Any other record gets one dataset named `data`. Every payload is an array as it is, or a normalised value that is not an array: its leaves are scalars, strings, bytes or arrays. |
| Layout.DictLayout | data/convert.py:22-28 | For a dict record, an array value is passed to `create_dataset` unchanged. Any other value is passed as `np.array` of its normalisation. |
| Layout.ArrayLayout | data/convert.py:29-30 | An array record plans exactly one dataset `data` holding the unchanged array. |
| Layout.OtherLayout | data/convert.py:31-33 | Any other record plans exactly one dataset `data` built from its normalisation. |
| Layout.PlanIgnoresNormalization | data/convert.py:22-33 | Saving an already normalised record plans the same datasets as saving the raw record. |
| Layout.TwoKeyExample | data/convert.py:22-28 | `{"a": [1, 2, 3], "b": "hello"}` plans dataset `a` from the list and dataset `b` from the string. |
| Save.SaveToHdf5 | data/convert.py:19-39 | Returns True exactly when the file opens, every planned dataset is created, and the file closes at the end of the `with` block. The file exists exactly when it opened. The datasets written are the planned ones up to the first failure, and that failure is the next planned dataset. On success all of them are written. |
| Paths.EndsWith | data/convert.py:48 | `f.endswith(suffix)`: a name that ends with the suffix is some head followed by the suffix. |
| Paths.EndsWithAppend | data/convert.py:48 | Conversely, any head followed by the suffix ends with it. |
| Paths.LastIndexOf | data/convert.py:63 | The index of the last occurrence of a character, or -1, as `rfind` inside `splitext`. |
| Paths.SplitExtRoot | data/convert.py:63 | The root `splitext` returns is a prefix of the name. |
| Paths.OutputName | data/convert.py:63 | The output name ends with `.hdf5`. A `.pkl` name with a non-dot character before the extension gets its stem followed by `.hdf5`. When only dots precede `.pkl`, `splitext` finds no extension and the whole name is kept, followed by `.hdf5`. |
| Paths.PklFiles | data/convert.py:48 | A name is selected exactly when it is listed and ends with `.pkl`. |
| Paths.PklFilesConcat | data/convert.py:48 | Selection keeps the listing order: filtering a concatenation concatenates the filtered parts. |
| Paths.OutputNameInjective | data/convert.py:63 | Distinct ordinary `.pkl` names get distinct output names. |
| Paths.OutputNamesCanCollide | data/convert.py:63 | `..pkl` and `..pkl.pkl` are both selected and both map to `..pkl.hdf5`. |
| Batch.Step | data/convert.py:60-78 | A file is skipped exactly when its output exists. Output names are only ever added, and only this file's output. A conversion adds the output. A load failure adds nothing. A failed save leaves an output exactly when the file opened. For a file not skipped, it fails to load exactly when `pickle.load` fails, and a loaded file succeeds exactly when `save_to_hdf5` would return True for it. |
| Batch.Run | data/convert.py:59-78 | Every selected file gets exactly one outcome, and outputs that existed before the run still exist. |
| Batch.ProcessFile | data/convert.py:60-78 | One loop iteration, with every exception caught, computes exactly `Step`. |
| Batch.ProcessAll | data/convert.py:59-78 | The loop gives the outcomes and outputs of `Run`, and its counter equals the number of successes. |
| Batch.BatchConvert | data/convert.py:41-80 | It returns early, with no output added, exactly when no listed name ends with `.pkl`. Otherwise it reports the successes out of the number of selected files, with the outcomes and outputs of `Run` over the selected files. |
| Batch.OutcomesPartitionFiles | data/convert.py:59-80 | Skipped, load failures, save failures and successes add up to the reported total, so the total includes skipped files. |
| Batch.CountsPartition | data/convert.py:59-80 | Every outcome is of exactly one of the four kinds. |
| Batch.ConvertedAtMostAttempted | data/convert.py:65-78 | The success count never exceeds the number of selected files that were not skipped. |
| Batch.RunOutcomeAt | data/convert.py:60-78 | The outcome of file i is the step on that file, given the outputs left by the files before it. |
| Batch.OutputsGrow | data/convert.py:65-75 | The output names present only grow along the loop. |
| Batch.ExistingOutputSkipped | data/convert.py:65-67 | A file whose output exists before the run is skipped. |
| Batch.SkipConsultsNothing | data/convert.py:65-67 | A skipped file is neither loaded nor written: its step leaves the outputs unchanged under any oracles. |
| Batch.CloseFailureLeavesOutput | data/convert.py:19-39 | A file whose datasets are all created but whose output fails to close is a save failure, is not counted, and leaves its output behind. |
| Batch.OutputlessStepKeepsOutputs | data/convert.py:69-78 | A file whose step adds no output leaves the output directory as the run without that file would. |
| Batch.OutputlessStepIsolated | data/convert.py:69-78 | A file whose step adds no output changes no other outcome. The outcomes are those of the run without it, with its own step's outcome recorded at its position. |
| Batch.FailureIsolated | data/convert.py:69-78 | A file that fails to load, or whose save fails without opening the output, leaves the outputs and every other outcome as the run without it would. |
| Batch.OpenedSaveFailureNotIsolated | data/convert.py:63-78 | When every save opens its file and then fails, `..pkl` followed by `..pkl.pkl` gives a save failure and a skip, while `..pkl.pkl` alone gives a save failure: the partial file of the first changes the outcome of the second. |
| Batch.OpenedFailingSave | data/convert.py:69-75 | A file that loads as the integer 0, whose output opens and whose datasets all fail, is a save failure that leaves its output behind. |
| Batch.ProcessedOutputPresent | data/convert.py:65-75 | After the run, a file that was converted or skipped, or whose save failed after the output opened, has its output present. |
| Batch.AllOutputsPresentRun | data/convert.py:65-67 | When every output already exists, every file is skipped, nothing is converted and the outputs are unchanged. |
| Batch.RerunIsNoOp | data/convert.py:63-67 | A second run, after a run in which every file was converted, skipped, or failed to save after opening its output, skips everything, converts nothing and changes no output. |

## Left out

- Failures of `os.makedirs` and `os.listdir` (data/convert.py:42-43, 48). Both run outside any `try`, so an error there ends the whole call with no summary line. The model assumes that the output directory can be created and the input directory listed.
- `os.path.abspath` and all printed progress and trace text (data/convert.py:45-46, 49, 52, 55-57, 61, 66, 72, 77-78, 80). The summary line is modelled as `Report`.
- The internals of `pickle.load`, `open`, `h5py.File`, `np.array` and `create_dataset`, including gzip compression. Each is an oracle that succeeds or fails. The oracles are deterministic: the same dataset in the same output file always behaves the same way.
- The input and output directory paths, `os.path.join`, and the module-level invocation (data/convert.py:62, 83-87). The directories are the listing and the set of output names.
- The exact text of `str(obj)`. `Value.Other` carries it as an opaque string.
- Float semantics. A float is an opaque bit pattern that is only compared for equality.
- Cyclic object graphs. An inductive datatype cannot represent them. In the source, the recursion at data/convert.py:13, 15 stops on a cycle with a `RecursionError`, which the `except` of data/convert.py:36-39 catches: `save_to_hdf5` returns False, the opened output stays behind, and the batch goes on. The model covers this only as a `creates` failure, like the other normalisation errors below.
- Hashability and uniqueness of dict keys. The model accepts any key values, even though Python dicts cannot hold duplicates. No property depends on this.
- `os.path.splitext` on Windows, where `\` also separates path components. The model follows the POSIX rule.
- Paths.SplitExtRoot: its own contract only states that the root is a prefix of the name. Its behaviour on `.pkl` names is stated by `OutputName`.
- Normalizer.Normalize: errors raised while normalising are not modelled. These are a `RecursionError` on very deep nesting (data/convert.py:13, 15) and an exception from `str(obj)` (data/convert.py:17). The source catches them with the `try` of data/convert.py:20-39. By then the file is already created and, for a dict record, the earlier datasets are already written. The model covers them only as a `creates` failure of the dataset whose value raised.
