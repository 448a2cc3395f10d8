/**
 The recursive normaliser `convert_to_hdf5_type`: it rewrites an object graph
 so that every leaf is a scalar, a string, bytes or an array, descending
 into lists and dict values and turning every unrecognised object into its
 string form.
 */
module Normalizer {
  import opened Values

  /** True when no unrecognised object is left outside an array: the shape
      every result of `Normalize` has. */
  predicate Normalized(v: Value) {
    match v
    case Other(_) => false
    case List(items) => forall i :: 0 <= i < |items| ==> Normalized(items[i])
    case Dict(entries) => forall i :: 0 <= i < |entries| ==> Normalized(entries[i].1)
    case _ => true
  }

  /** What normalisation does to a single leaf. */
  function LeafImage(leaf: Value): Value {
    if leaf.Other? then Str(leaf.repr) else leaf
  }

  /** `convert_to_hdf5_type(obj)`. */
  function Normalize(v: Value): (r: Value)
    ensures Normalized(r)
    ensures IsScalar(v) || v.NdArray? ==> r == v
    ensures v.Other? ==> r == Str(v.repr)
    ensures r.List? <==> v.List?
    ensures r.Dict? <==> v.Dict?
    ensures r.NdArray? <==> v.NdArray?
    ensures Arity(r) == Arity(v)
  {
    match v
    case List(items) =>
      List(seq(|items|, i requires 0 <= i < |items| => Normalize(items[i])))
    case Dict(entries) =>
      Dict(seq(|entries|, i requires 0 <= i < |entries| => (entries[i].0, Normalize(entries[i].1))))
    case Other(repr) => Str(repr)
    case _ => v
  }

  /** A list is mapped element by element: same length, same order. */
  lemma ListElementwise(items: seq<Value>)
    ensures Normalize(List(items)).List?
    ensures |Normalize(List(items)).items| == |items|
    ensures forall i :: 0 <= i < |items| ==> Normalize(List(items)).items[i] == Normalize(items[i])
  {
  }

  /** Normalising a concatenation of lists is concatenating the normalised
      lists, so no item moves relative to another. */
  lemma ListConcat(a: seq<Value>, b: seq<Value>)
    ensures Normalize(List(a + b)).items == Normalize(List(a)).items + Normalize(List(b)).items
  {
    var lhs := Normalize(List(a + b)).items;
    var rhs := Normalize(List(a)).items + Normalize(List(b)).items;
    assert |lhs| == |rhs|;
    forall i | 0 <= i < |lhs|
      ensures lhs[i] == rhs[i]
    {
      if i < |a| {
        assert (a + b)[i] == a[i];
      } else {
        assert (a + b)[i] == b[i - |a|];
      }
    }
  }

  /** A dict keeps exactly its keys, in the same order, and each value is
      replaced by its normalisation. */
  lemma DictKeysKept(entries: seq<(Value, Value)>)
    ensures Normalize(Dict(entries)).Dict?
    ensures Keys(Normalize(Dict(entries)).entries) == Keys(entries)
    ensures forall i :: 0 <= i < |entries| ==>
      Normalize(Dict(entries)).entries[i].1 == Normalize(entries[i].1)
  {
  }

  /** The values left unchanged are exactly the normalised ones. */
  lemma {:induction false} FixedPointIffNormalized(v: Value)
    ensures Normalize(v) == v <==> Normalized(v)
    decreases v
  {
    if Normalized(v) {
      match v
      case List(items) =>
        var r := Normalize(v).items;
        forall i | 0 <= i < |items|
          ensures r[i] == items[i]
        {
          FixedPointIffNormalized(items[i]);
        }
        assert r == items;
      case Dict(entries) =>
        var r := Normalize(v).entries;
        forall i | 0 <= i < |entries|
          ensures r[i] == entries[i]
        {
          FixedPointIffNormalized(entries[i].1);
        }
        assert r == entries;
      case _ =>
    }
  }

  /** Normalising twice is normalising once. */
  lemma {:induction false} Idempotent(v: Value)
    ensures Normalize(Normalize(v)) == Normalize(v)
  {
    FixedPointIffNormalized(Normalize(v));
  }

  /** Applies `LeafImage` to every leaf of a sequence. */
  function MapLeaves(s: seq<Value>): (r: seq<Value>)
    ensures |r| == |s|
    ensures forall i :: 0 <= i < |s| ==> r[i] == LeafImage(s[i])
  {
    seq(|s|, i requires 0 <= i < |s| => LeafImage(s[i]))
  }

  lemma MapLeavesConcat(a: seq<Value>, b: seq<Value>)
    ensures MapLeaves(a + b) == MapLeaves(a) + MapLeaves(b)
  {
    assert forall i :: 0 <= i < |a| ==> (a + b)[i] == a[i];
    assert forall i :: |a| <= i < |a| + |b| ==> (a + b)[i] == b[i - |a|];
  }

  /** Normalisation keeps the tree and rewrites its leaves one by one: the
      leaves of the result, in depth-first order, are the images of the
      leaves of the input. */
  lemma {:induction false} LeavesRewritten(v: Value)
    ensures SameShape(v, Normalize(v))
    ensures Leaves(Normalize(v)) == MapLeaves(Leaves(v))
    decreases v, 1
  {
    if IsContainer(v) {
      LeavesFromRewritten(v, 0);
    }
  }

  lemma {:induction false} LeavesFromRewritten(v: Value, i: nat)
    requires IsContainer(v)
    ensures SameShapeFrom(v, Normalize(v), i)
    ensures LeavesFrom(Normalize(v), i) == MapLeaves(LeavesFrom(v, i))
    decreases v, 0, Arity(v) - i
  {
    if i < Arity(v) {
      LeavesFromRewritten(v, i + 1);
      match v
      case List(items) =>
        LeavesRewritten(items[i]);
        MapLeavesConcat(Leaves(items[i]), LeavesFrom(v, i + 1));
      case Dict(entries) =>
        LeavesRewritten(entries[i].1);
        MapLeavesConcat(Leaves(entries[i].1), LeavesFrom(v, i + 1));
    }
  }

  /** Every leaf of a normalised value is a scalar, a string, bytes or an
      array. */
  lemma {:induction false} NormalizedLeafKinds(v: Value)
    ensures forall k :: 0 <= k < |Leaves(Normalize(v))| ==>
      IsScalar(Leaves(Normalize(v))[k]) || Leaves(Normalize(v))[k].NdArray?
  {
    LeavesRewritten(v);
    LeavesAreLeaves(v);
  }

  lemma {:induction false} LeavesAreLeaves(v: Value)
    ensures forall k :: 0 <= k < |Leaves(v)| ==> !IsContainer(Leaves(v)[k])
    decreases v, 1
  {
    if IsContainer(v) {
      LeavesFromAreLeaves(v, 0);
    }
  }

  lemma {:induction false} LeavesFromAreLeaves(v: Value, i: nat)
    requires IsContainer(v)
    ensures forall k :: 0 <= k < |LeavesFrom(v, i)| ==> !IsContainer(LeavesFrom(v, i)[k])
    decreases v, 0, Arity(v) - i
  {
    if i < Arity(v) {
      LeavesFromAreLeaves(v, i + 1);
      match v
      case List(items) => LeavesAreLeaves(items[i]);
      case Dict(entries) => LeavesAreLeaves(entries[i].1);
    }
  }
}
