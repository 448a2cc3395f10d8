/**
 The object graph that a pickle file decodes to, restricted to the shapes the
 converter distinguishes. Every Python object falls into exactly one variant,
 following the order of the `isinstance` tests in data/convert.py.
 */
module Values {

  /** A deserialised Python object. */
  datatype Value =
      /** `int`, unbounded as in Python. */
    | Int(i: int)
      /** `bool`; a subclass of `int`, so `isinstance(b, int)` holds. */
    | Bool(b: bool)
      /** `float`, kept as its opaque IEEE-754 binary64 bit pattern. */
    | Float(bits: bv64)
    | Str(s: string)
    | Bytes(data: seq<bv8>)
      /** `numpy.ndarray`: a shape and its cells in C order. An object array
          may hold any value in its cells; the converter never looks inside. */
    | NdArray(shape: seq<nat>, cells: seq<Value>)
    | List(items: seq<Value>)
      /** `dict`: key/value pairs in insertion (iteration) order. */
    | Dict(entries: seq<(Value, Value)>)
      /** Anything else (None, tuples, sets, numpy integer scalars, class
          instances, ...), carrying the text `str(obj)` would produce. */
    | Other(repr: string)

  /** The values the first `isinstance` test accepts. */
  predicate IsScalar(v: Value) {
    v.Int? || v.Bool? || v.Float? || v.Str? || v.Bytes?
  }

  /** Containers the converter descends into; everything else is a leaf. */
  predicate IsContainer(v: Value) {
    v.List? || v.Dict?
  }

  /** Number of children of a container: list items or dict values. */
  function Arity(v: Value): nat {
    match v
    case List(items) => |items|
    case Dict(entries) => |entries|
    case _ => 0
  }

  /** The keys of a dict, in iteration order. */
  function Keys(entries: seq<(Value, Value)>): (ks: seq<Value>)
    ensures |ks| == |entries|
    ensures forall i :: 0 <= i < |entries| ==> ks[i] == entries[i].0
  {
    seq(|entries|, i requires 0 <= i < |entries| => entries[i].0)
  }

  /** The leaves of a value in depth-first order. Dict keys are names, not
      contents, so only dict values contribute leaves; an array is a leaf. */
  function Leaves(v: Value): seq<Value>
    decreases v, 1
  {
    if IsContainer(v) then LeavesFrom(v, 0) else [v]
  }

  /** The leaves of the children of `v` from child `i` onwards. */
  function LeavesFrom(v: Value, i: nat): seq<Value>
    decreases v, 0, Arity(v) - i
  {
    if i >= Arity(v) then []
    else
      match v
      case List(items) => Leaves(items[i]) + LeavesFrom(v, i + 1)
      case Dict(entries) => Leaves(entries[i].1) + LeavesFrom(v, i + 1)
  }

  /** `a` and `b` are the same tree up to their leaves: containers of the same
      kind with the same number of children, dicts with the same keys in the
      same order, children of the same shape, and leaves against leaves. */
  predicate SameShape(a: Value, b: Value)
    decreases a, 1
  {
    if IsContainer(a) then
      a.List? == b.List? && a.Dict? == b.Dict? && Arity(a) == Arity(b) && SameShapeFrom(a, b, 0)
    else
      !IsContainer(b)
  }

  /** The children of `a` and `b` from child `i` onwards have the same shape,
      and so have the same keys where they are dict entries. */
  predicate SameShapeFrom(a: Value, b: Value, i: nat)
    decreases a, 0, Arity(a) - i
  {
    if i >= Arity(a) then true
    else
      match a
      case List(items) =>
        b.List? && i < |b.items| && SameShape(items[i], b.items[i]) && SameShapeFrom(a, b, i + 1)
      case Dict(entries) =>
        b.Dict? && i < |b.entries| && entries[i].0 == b.entries[i].0
        && SameShape(entries[i].1, b.entries[i].1) && SameShapeFrom(a, b, i + 1)
  }

  /** Shape sees nesting and container kind, which the leaf sequence alone
      does not: a nested list is not the same shape as its flattening, and an
      empty list is not the same shape as an empty dict. */
  lemma ShapeSeesNesting()
    ensures Leaves(List([List([Int(1)])])) == Leaves(List([Int(1)]))
    ensures !SameShape(List([List([Int(1)])]), List([Int(1)]))
    ensures Leaves(List([])) == Leaves(Dict([]))
    ensures !SameShape(List([]), Dict([]))
  {
    assert LeavesFrom(List([Int(1)]), 1) == [];
    assert LeavesFrom(List([List([Int(1)])]), 1) == [];
    assert !SameShape(List([Int(1)]), Int(1));
  }
}
