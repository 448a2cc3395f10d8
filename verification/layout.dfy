/**
 Which datasets `save_to_hdf5` creates for a record, and what each holds.
 The datasets are listed in creation order; compression is a fixed option of
 every dataset and is not modelled.
 */
module Layout {
  import opened Values
  import opened Normalizer

  /** What is handed to `create_dataset` as its data. */
  datatype Payload =
      /** An array handed over as it is. */
    | Verbatim(array: Value)
      /** `np.array(value)` built from a normalised, non-array value. */
    | Converted(value: Value)

  datatype Dataset = Dataset(name: Value, payload: Payload)

  /** The fixed name used when the record is not a dict. */
  const DefaultName: Value := Str("data")

  /** The form every planned payload has: an array as it is, or a normalised
      value that is not an array. Whether h5py accepts it is not decided here. */
  predicate WellFormedPayload(p: Payload) {
    match p
    case Verbatim(a) => a.NdArray?
    case Converted(c) => Normalized(c) && !c.NdArray?
  }

  /** The payload for one dict value: an array is handed over as it is, anything
      else is normalised and handed to `np.array`. */
  function EntryPayload(value: Value): (p: Payload)
    ensures WellFormedPayload(p)
    ensures value.NdArray? ==> p == Verbatim(value)
    ensures !value.NdArray? ==> p == Converted(Normalize(value))
  {
    var c := Normalize(value);
    if c.NdArray? then Verbatim(c) else Converted(c)
  }

  /** The datasets written for a record, in creation order. */
  function Plan(data: Value): (ds: seq<Dataset>)
    ensures data.Dict? ==> |ds| == |data.entries|
    ensures data.Dict? ==> forall i :: 0 <= i < |ds| ==> ds[i].name == data.entries[i].0
    ensures !data.Dict? ==> |ds| == 1 && ds[0].name == DefaultName
    ensures forall i :: 0 <= i < |ds| ==> WellFormedPayload(ds[i].payload)
  {
    match data
    case Dict(entries) =>
      seq(|entries|, i requires 0 <= i < |entries| => Dataset(entries[i].0, EntryPayload(entries[i].1)))
    case NdArray(_, _) => [Dataset(DefaultName, Verbatim(data))]
    case _ => [Dataset(DefaultName, Converted(Normalize(data)))]
  }

  /** A dict record gives one dataset per key, named by the key, in key
      order; an array value is handed over unchanged and any other value is
      normalised first. */
  lemma DictLayout(entries: seq<(Value, Value)>)
    ensures |Plan(Dict(entries))| == |entries|
    ensures forall i :: 0 <= i < |entries| ==> Plan(Dict(entries))[i].name == entries[i].0
    ensures forall i :: 0 <= i < |entries| && entries[i].1.NdArray? ==>
      Plan(Dict(entries))[i].payload == Verbatim(entries[i].1)
    ensures forall i :: 0 <= i < |entries| && !entries[i].1.NdArray? ==>
      Plan(Dict(entries))[i].payload == Converted(Normalize(entries[i].1))
  {
  }

  /** An array record gives exactly one dataset `data` holding the array. */
  lemma ArrayLayout(shape: seq<nat>, cells: seq<Value>)
    ensures Plan(NdArray(shape, cells)) == [Dataset(DefaultName, Verbatim(NdArray(shape, cells)))]
  {
  }

  /** Any other record gives exactly one dataset `data` built from its
      normalisation. */
  lemma OtherLayout(data: Value)
    requires !data.Dict? && !data.NdArray?
    ensures Plan(data) == [Dataset(DefaultName, Converted(Normalize(data)))]
  {
  }

  /** Saving an already normalised record writes the same datasets. */
  lemma {:induction false} PlanIgnoresNormalization(data: Value)
    ensures Plan(Normalize(data)) == Plan(data)
  {
    match data
    case Dict(entries) =>
      var n := Normalize(data).entries;
      forall i | 0 <= i < |entries|
        ensures EntryPayload(n[i].1) == EntryPayload(entries[i].1)
      {
        Idempotent(entries[i].1);
      }
    case NdArray(_, _) =>
    case _ =>
      Idempotent(data);
  }

  /** The record `{"a": [1, 2, 3], "b": "hello"}` plans a dataset `a` built
      from the list and a dataset `b` built from the string. */
  lemma TwoKeyExample()
    ensures Plan(Dict([(Str("a"), List([Int(1), Int(2), Int(3)])), (Str("b"), Str("hello"))]))
         == [Dataset(Str("a"), Converted(List([Int(1), Int(2), Int(3)]))),
             Dataset(Str("b"), Converted(Str("hello")))]
  {
    var l := List([Int(1), Int(2), Int(3)]);
    FixedPointIffNormalized(l);
  }
}
