/**
 `batch_convert_to_hdf5(input_directory, output_directory)`: select the
 `.pkl` entries of the input directory, and for each, in listing order, skip
 it if its output already exists, otherwise load it and save it, counting the
 successes. The output directory is the set of file names it holds; loading
 and writing are oracles.
 */
module Batch {
  import opened Values
  import opened Layout
  import opened Save
  import opened Paths

  /** What `pickle.load` gives for one input file. */
  datatype Load = Loaded(value: Value) | Unreadable

  /** The behaviour of the outside world: loading an input file by name,
      opening an output file by name, creating one dataset in a given output
      file, and closing (flushing) an output file by name. */
  datatype Oracles = Oracles(
    load: string -> Load,
    opens: string -> bool,
    creates: (string, Dataset) -> bool,
    closes: string -> bool)

  /** What happened to one selected file. */
  datatype FileOutcome = Skipped | LoadFailed | SaveFailed | Succeeded

  /** The outcomes so far, one per processed file, and the output names that
      now exist. */
  datatype Progress = Progress(outcomes: seq<FileOutcome>, outputs: set<string>)

  /** The final summary line: either the early "no .pkl files" return, or the
      count of conversions out of the number of selected files. */
  datatype Report =
    | NoPklFiles
    | Completed(converted: nat, total: nat, outcomes: seq<FileOutcome>)

  /** Dataset creation inside one output file. */
  function Creator(env: Oracles, out: string): Dataset -> bool {
    d => env.creates(out, d)
  }

  /** One iteration of the loop over selected files. */
  function Step(name: string, outputs: set<string>, env: Oracles): (p: (FileOutcome, set<string>))
    ensures p.0 == Skipped <==> OutputName(name) in outputs
    ensures outputs <= p.1 <= outputs + {OutputName(name)}
    ensures p.0 == Succeeded ==> p.1 == outputs + {OutputName(name)}
    ensures p.0 == LoadFailed ==> p.1 == outputs
    ensures p.0 == SaveFailed ==> (OutputName(name) in p.1 <==> env.opens(OutputName(name)))
    ensures OutputName(name) !in outputs ==> (p.0 == LoadFailed <==> env.load(name).Unreadable?)
    ensures OutputName(name) !in outputs && env.load(name).Loaded? ==>
      var out := OutputName(name);
      (p.0 == Succeeded <==> Saves(env.load(name).value, env.opens(out), Creator(env, out), env.closes(out)))
  {
    var out := OutputName(name);
    if out in outputs then (Skipped, outputs)
    else
      match env.load(name)
      case Unreadable => (LoadFailed, outputs)
      case Loaded(v) =>
        var opens := env.opens(out);
        var outputs' := if opens then outputs + {out} else outputs;
        if Saves(v, opens, Creator(env, out), env.closes(out)) then (Succeeded, outputs') else (SaveFailed, outputs')
  }

  /** The loop over `files` starting from the output names in `existing`. */
  function Run(files: seq<string>, existing: set<string>, env: Oracles): (p: Progress)
    ensures |p.outcomes| == |files|
    ensures existing <= p.outputs
  {
    if |files| == 0 then Progress([], existing)
    else
      var before := Run(files[..|files| - 1], existing, env);
      var (o, outputs) := Step(files[|files| - 1], before.outputs, env);
      Progress(before.outcomes + [o], outputs)
  }

  /** How many outcomes equal `o`. */
  function CountOf(o: FileOutcome, outcomes: seq<FileOutcome>): nat {
    if |outcomes| == 0 then 0
    else CountOf(o, outcomes[..|outcomes| - 1]) + (if outcomes[|outcomes| - 1] == o then 1 else 0)
  }

  /** Run over one more file is one more step. */
  lemma RunAppend(files: seq<string>, g: string, existing: set<string>, env: Oracles)
    ensures var before := Run(files, existing, env);
      var step := Step(g, before.outputs, env);
      Run(files + [g], existing, env) == Progress(before.outcomes + [step.0], step.1)
  {
    assert (files + [g])[..|files|] == files;
  }

  /** Run over one more file of the list is one more step. */
  lemma RunPrefixStep(files: seq<string>, i: nat, existing: set<string>, env: Oracles)
    requires i < |files|
    ensures var before := Run(files[..i], existing, env);
      var step := Step(files[i], before.outputs, env);
      Run(files[..i + 1], existing, env) == Progress(before.outcomes + [step.0], step.1)
  {
    PrefixSnoc(files, i);
    RunAppend(files[..i], files[i], existing, env);
  }

  lemma PrefixSnoc<T>(s: seq<T>, i: nat)
    requires i < |s|
    ensures s[..i + 1] == s[..i] + [s[i]]
  {
  }

  /** The body of the loop for one selected file: skip it if its output
      exists, otherwise load it and save it. Any failure is caught here and
      recorded; it never ends the loop. */
  method ProcessFile(name: string, outputs: set<string>, env: Oracles)
    returns (o: FileOutcome, outputs': set<string>)
    ensures (o, outputs') == Step(name, outputs, env)
  {
    var out := OutputName(name);
    outputs' := outputs;
    if out in outputs {
      return Skipped, outputs;
    }
    match env.load(name) {
      case Unreadable =>
        o := LoadFailed;
      case Loaded(v) =>
        var ok, created, _ := SaveToHdf5(v, env.opens(out), Creator(env, out), env.closes(out));
        if created {
          outputs' := outputs + {out};
        }
        o := if ok then Succeeded else SaveFailed;
    }
  }

  /** The loop over the selected files, in order. */
  method ProcessAll(files: seq<string>, existing: set<string>, env: Oracles)
    returns (converted: nat, outcomes: seq<FileOutcome>, outputs: set<string>)
    ensures Progress(outcomes, outputs) == Run(files, existing, env)
    ensures converted == CountOf(Succeeded, outcomes)
  {
    converted, outcomes, outputs := 0, [], existing;
    var i := 0;
    while i < |files|
      invariant 0 <= i <= |files|
      invariant Run(files[..i], existing, env) == Progress(outcomes, outputs)
      invariant converted == CountOf(Succeeded, outcomes)
    {
      var o;
      RunPrefixStep(files, i, existing, env);
      o, outputs := ProcessFile(files[i], outputs, env);
      CountAppend(Succeeded, outcomes, o);
      if o == Succeeded {
        converted := converted + 1;
      }
      outcomes := outcomes + [o];
      i := i + 1;
    }
    assert files[..i] == files;
  }

  lemma CountAppend(o: FileOutcome, outcomes: seq<FileOutcome>, x: FileOutcome)
    ensures CountOf(o, outcomes + [x]) == CountOf(o, outcomes) + (if x == o then 1 else 0)
  {
    assert (outcomes + [x])[..|outcomes|] == outcomes;
  }

  /** The driver. Returns the summary and the output names present at the
      end. */
  method BatchConvert(listing: seq<string>, existing: set<string>, env: Oracles)
    returns (report: Report, outputs: set<string>)
    ensures report.NoPklFiles? <==> forall f :: f in listing ==> !EndsWith(f, PklSuffix)
    ensures report.NoPklFiles? ==> outputs == existing
    ensures report.Completed? ==>
      && report.total == |PklFiles(listing)|
      && report.outcomes == Run(PklFiles(listing), existing, env).outcomes
      && outputs == Run(PklFiles(listing), existing, env).outputs
      && report.converted == CountOf(Succeeded, report.outcomes)
  {
    var files := PklFiles(listing);
    if |files| == 0 {
      assert forall f :: f in listing ==> !EndsWith(f, PklSuffix);
      return NoPklFiles, existing;
    }
    assert files[0] in listing;
    var converted, outcomes;
    converted, outcomes, outputs := ProcessAll(files, existing, env);
    report := Completed(converted, |files|, outcomes);
  }

  /** Every selected file gets exactly one outcome and the reported total
      counts all of them, skipped ones included: the four kinds add up to the
      number of selected files. */
  lemma OutcomesPartitionFiles(files: seq<string>, existing: set<string>, env: Oracles)
    ensures var p := Run(files, existing, env);
      CountOf(Skipped, p.outcomes) + CountOf(LoadFailed, p.outcomes)
      + CountOf(SaveFailed, p.outcomes) + CountOf(Succeeded, p.outcomes) == |files|
  {
    CountsPartition(Run(files, existing, env).outcomes);
  }

  /** Each outcome is of exactly one of the four kinds. */
  lemma {:induction false} CountsPartition(outcomes: seq<FileOutcome>)
    ensures CountOf(Skipped, outcomes) + CountOf(LoadFailed, outcomes)
      + CountOf(SaveFailed, outcomes) + CountOf(Succeeded, outcomes) == |outcomes|
  {
    if |outcomes| > 0 {
      CountsPartition(outcomes[..|outcomes| - 1]);
    }
  }

  /** The success count never exceeds the number of selected files that were
      not skipped. */
  lemma ConvertedAtMostAttempted(files: seq<string>, existing: set<string>, env: Oracles)
    ensures var p := Run(files, existing, env);
      CountOf(Succeeded, p.outcomes) <= |files| - CountOf(Skipped, p.outcomes)
  {
    OutcomesPartitionFiles(files, existing, env);
  }

  /** The outcome of file `i` is the step on that file given the outputs left
      by the files before it. */
  lemma {:induction false} RunOutcomeAt(files: seq<string>, existing: set<string>, env: Oracles, i: nat)
    requires i < |files|
    ensures Run(files, existing, env).outcomes[i]
         == Step(files[i], Run(files[..i], existing, env).outputs, env).0
    decreases |files|
  {
    if i < |files| - 1 {
      var init := files[..|files| - 1];
      RunOutcomeAt(init, existing, env, i);
      assert init[..i] == files[..i];
    } else {
      assert files[..|files| - 1] == files[..i];
    }
  }

  /** Output names only accumulate along the loop. */
  lemma {:induction false} OutputsGrow(files: seq<string>, existing: set<string>, env: Oracles, i: nat)
    requires i <= |files|
    ensures Run(files[..i], existing, env).outputs <= Run(files, existing, env).outputs
    decreases |files|
  {
    if i < |files| {
      var init := files[..|files| - 1];
      OutputsGrow(init, existing, env, i);
      assert init[..i] == files[..i];
    } else {
      assert files[..i] == files;
    }
  }

  /** A file whose output exists before the run is skipped. */
  lemma ExistingOutputSkipped(files: seq<string>, existing: set<string>, env: Oracles, i: nat)
    requires i < |files| && OutputName(files[i]) in existing
    ensures Run(files, existing, env).outcomes[i] == Skipped
  {
    RunOutcomeAt(files, existing, env, i);
  }

  /** A skipped file is neither loaded nor written: its step leaves the
      outputs alone and does not depend on the oracles at all. */
  lemma SkipConsultsNothing(name: string, outputs: set<string>, env: Oracles, env': Oracles)
    requires OutputName(name) in outputs
    ensures Step(name, outputs, env) == Step(name, outputs, env') == (Skipped, outputs)
  {
  }

  /** Isolation, outputs: a file whose step adds no output leaves the output
      directory exactly as the run without that file leaves it. */
  lemma {:induction false} OutputlessStepKeepsOutputs(pre: seq<string>, f: string, post: seq<string>,
                                                     existing: set<string>, env: Oracles)
    requires Step(f, Run(pre, existing, env).outputs, env).1 == Run(pre, existing, env).outputs
    ensures Run(pre + [f] + post, existing, env).outputs == Run(pre + post, existing, env).outputs
    decreases |post|
  {
    if |post| == 0 {
      RunAppend(pre, f, existing, env);
      assert pre + [f] + post == pre + [f];
      assert pre + post == pre;
    } else {
      var post', g := post[..|post| - 1], post[|post| - 1];
      OutputlessStepKeepsOutputs(pre, f, post', existing, env);
      SnocSplit(pre + [f], post);
      SnocSplit(pre, post);
      RunAppend(pre + [f] + post', g, existing, env);
      RunAppend(pre + post', g, existing, env);
    }
  }

  /** Isolation, outcomes: a file whose step adds no output changes no other
      file's outcome; the outcomes are those of the run without that file,
      with its own outcome recorded at its position. */
  lemma {:induction false} OutputlessStepIsolated(pre: seq<string>, f: string, post: seq<string>,
                                                 existing: set<string>, env: Oracles)
    requires Step(f, Run(pre, existing, env).outputs, env).1 == Run(pre, existing, env).outputs
    ensures Run(pre + [f] + post, existing, env).outcomes
         == Run(pre, existing, env).outcomes + [Step(f, Run(pre, existing, env).outputs, env).0]
            + Run(pre + post, existing, env).outcomes[|pre|..]
    decreases |post|
  {
    var fo := Step(f, Run(pre, existing, env).outputs, env).0;
    if |post| == 0 {
      RunAppend(pre, f, existing, env);
      assert pre + [f] + post == pre + [f];
      assert pre + post == pre;
    } else {
      var post', g := post[..|post| - 1], post[|post| - 1];
      OutputlessStepIsolated(pre, f, post', existing, env);
      OutputlessStepKeepsOutputs(pre, f, post', existing, env);
      SnocSplit(pre + [f], post);
      SnocSplit(pre, post);
      SnocBoth(pre + [f] + post', pre + post', g, existing, env, Run(pre, existing, env).outcomes + [fo], |pre|);
    }
  }

  /** Two runs that end with the same outputs, and whose outcomes agree
      after a fixed prefix, still do so after one more file. */
  lemma SnocBoth(a: seq<string>, b: seq<string>, g: string, existing: set<string>, env: Oracles,
                 prefix: seq<FileOutcome>, n: nat)
    requires n <= |b|
    requires Run(a, existing, env).outputs == Run(b, existing, env).outputs
    requires Run(a, existing, env).outcomes == prefix + Run(b, existing, env).outcomes[n..]
    ensures Run(a + [g], existing, env).outcomes == prefix + Run(b + [g], existing, env).outcomes[n..]
  {
    RunAppend(a, g, existing, env);
    RunAppend(b, g, existing, env);
    SliceSnoc(prefix, Run(b, existing, env).outcomes, Step(g, Run(b, existing, env).outputs, env).0, n);
  }

  lemma SliceSnoc<T>(p: seq<T>, r: seq<T>, o: T, n: nat)
    requires n <= |r|
    ensures (p + r[n..]) + [o] == p + (r + [o])[n..]
  {
    assert (r + [o])[n..] == r[n..] + [o];
  }

  /** Failure isolation: a file that fails to load, or whose output file
      never opens, changes nothing for the others. The outputs are those of
      the run without it, and so are the other outcomes. */
  lemma FailureIsolated(pre: seq<string>, f: string, post: seq<string>,
                        existing: set<string>, env: Oracles)
    requires var o := Step(f, Run(pre, existing, env).outputs, env).0;
      o == LoadFailed || (o == SaveFailed && !env.opens(OutputName(f)))
    ensures Run(pre + [f] + post, existing, env).outputs == Run(pre + post, existing, env).outputs
    ensures Run(pre + [f] + post, existing, env).outcomes
         == Run(pre, existing, env).outcomes + [Step(f, Run(pre, existing, env).outputs, env).0]
            + Run(pre + post, existing, env).outcomes[|pre|..]
  {
    OutputlessStepKeepsOutputs(pre, f, post, existing, env);
    OutputlessStepIsolated(pre, f, post, existing, env);
  }

  /** A failed save whose file did open is not isolated: the partial file it
      leaves can make a later file with the same output name be skipped.
      Here `..pkl` fails after opening `..pkl.hdf5`, so `..pkl.pkl` is
      skipped, although on its own it would have been attempted. */
  lemma OpenedSaveFailureNotIsolated(env: Oracles)
    requires forall n :: env.load(n) == Loaded(Int(0))
    requires forall n :: env.opens(n)
    requires forall n, d :: !env.creates(n, d)
    ensures Run(["..pkl", "..pkl.pkl"], {}, env).outcomes == [SaveFailed, Skipped]
    ensures Run(["..pkl.pkl"], {}, env).outcomes == [SaveFailed]
  {
    OutputNamesCanCollide();
    var out := "..pkl.hdf5";
    OpenedFailingSave("..pkl", {}, env);
    OpenedFailingSave("..pkl.pkl", {}, env);
    RunSingle("..pkl", {}, env);
    RunSingle("..pkl.pkl", {}, env);
    SkipConsultsNothing("..pkl.pkl", {out}, env, env);
    RunAppend(["..pkl"], "..pkl.pkl", {}, env);
    assert ["..pkl"] + ["..pkl.pkl"] == ["..pkl", "..pkl.pkl"];
  }

  /** A run over one file is one step. */
  lemma RunSingle(f: string, existing: set<string>, env: Oracles)
    ensures var step := Step(f, existing, env);
      Run([f], existing, env) == Progress([step.0], step.1)
  {
    RunAppend([], f, existing, env);
    assert [] + [f] == [f];
  }

  /** A file that loads to a scalar, whose output opens but where no dataset
      can be created, fails its save and leaves its output behind. */
  lemma OpenedFailingSave(name: string, outputs: set<string>, env: Oracles)
    requires OutputName(name) !in outputs
    requires env.load(name) == Loaded(Int(0))
    requires env.opens(OutputName(name))
    requires forall d :: !env.creates(OutputName(name), d)
    ensures Step(name, outputs, env) == (SaveFailed, outputs + {OutputName(name)})
  {
    var plan := Plan(Int(0));
    assert !Creator(env, OutputName(name))(plan[0]);
  }

  /** Closing the file is the last step of a save: a file whose datasets were
      all created but which fails to close is a save failure, counted as no
      success, and its output stays behind. */
  lemma CloseFailureLeavesOutput(name: string, outputs: set<string>, env: Oracles)
    requires OutputName(name) !in outputs
    requires env.load(name).Loaded?
    requires env.opens(OutputName(name))
    requires forall d :: env.creates(OutputName(name), d)
    requires !env.closes(OutputName(name))
    ensures Step(name, outputs, env) == (SaveFailed, outputs + {OutputName(name)})
  {
  }

  /** Splitting the last element off a concatenation. */
  lemma SnocSplit<T>(pre: seq<T>, post: seq<T>)
    requires |post| > 0
    ensures pre + post == (pre + post[..|post| - 1]) + [post[|post| - 1]]
  {
    assert post == post[..|post| - 1] + [post[|post| - 1]];
  }

  /** True when a file with outcome `o` has its output present afterwards:
      it was skipped, converted, or its save failed after the file opened. */
  predicate LeavesOutput(o: FileOutcome, name: string, env: Oracles) {
    o == Skipped || o == Succeeded || (o == SaveFailed && env.opens(OutputName(name)))
  }

  /** A file that was skipped, converted, or whose save failed after opening
      its output has its output present at the end of the run. */
  lemma ProcessedOutputPresent(files: seq<string>, existing: set<string>, env: Oracles, i: nat)
    requires i < |files|
    requires LeavesOutput(Run(files, existing, env).outcomes[i], files[i], env)
    ensures OutputName(files[i]) in Run(files, existing, env).outputs
  {
    RunOutcomeAt(files, existing, env, i);
    RunPrefixStep(files, i, existing, env);
    OutputsGrow(files, existing, env, i + 1);
  }

  /** When every output already exists, the run skips every file, converts
      none and leaves the output directory as it was. */
  lemma {:induction false} AllOutputsPresentRun(files: seq<string>, existing: set<string>, env: Oracles)
    requires forall i :: 0 <= i < |files| ==> OutputName(files[i]) in existing
    ensures Run(files, existing, env).outputs == existing
    ensures forall i :: 0 <= i < |files| ==> Run(files, existing, env).outcomes[i] == Skipped
    ensures CountOf(Succeeded, Run(files, existing, env).outcomes) == 0
  {
    if |files| > 0 {
      var init := files[..|files| - 1];
      AllOutputsPresentRun(init, existing, env);
    }
  }

  /** Re-running after a run in which every file left its output (skipped,
      converted, or a save that failed after opening) skips everything,
      converts nothing and changes no output. A partial output therefore
      blocks any retry of its input. */
  lemma RerunIsNoOp(files: seq<string>, existing: set<string>, env: Oracles, env': Oracles)
    requires forall i :: 0 <= i < |files| ==>
      LeavesOutput(Run(files, existing, env).outcomes[i], files[i], env)
    ensures var first := Run(files, existing, env);
      && Run(files, first.outputs, env').outputs == first.outputs
      && CountOf(Succeeded, Run(files, first.outputs, env').outcomes) == 0
      && forall i :: 0 <= i < |files| ==> Run(files, first.outputs, env').outcomes[i] == Skipped
  {
    var first := Run(files, existing, env);
    forall i | 0 <= i < |files|
      ensures OutputName(files[i]) in first.outputs
    {
      ProcessedOutputPresent(files, existing, env, i);
    }
    AllOutputsPresentRun(files, first.outputs, env');
  }
}
