/** Array literals of the C target (`generate_linearized_array` in
    loopy/target/c/__init__.py): the values of a multi-dimensional array laid
    out in a flat buffer through the declared strides. Element values are of
    any type; the buffer starts out filled with the type's zero. */
module LinearizedArray {
  import opened Wrappers
  import opened Decimal

  /** How an array axis is laid out: a fixed stride (which must be a known
      integer, `None` when it is symbolic) or some other tag, named by its
      type. */
  datatype DimTag = FixedStrideTag(stride: Option<int>) | OtherDimTag(typeName: string)

  /** The declaration of an array: its name, the length of each axis (`None`
      for a length that is not a compile-time constant), its dimension tags
      and its offset. */
  datatype ArrayDecl = ArrayDecl(name: string, shape: seq<Option<nat>>, dimTags: seq<DimTag>, offset: int)

  /** The product of the axis lengths. */
  function Product(shape: seq<nat>): nat {
    if |shape| == 0 then 1 else shape[0] * Product(shape[1..])
  }

  /** The number of elements, when every axis length is known. */
  function Size(shape: seq<Option<nat>>): (r: Option<nat>)
    ensures r.Some? <==> forall k :: 0 <= k < |shape| ==> shape[k].Some?
  {
    if |shape| == 0 then Some(1)
    else if shape[0].None? then None
    else match Size(shape[1..])
      case None => None
      case Some(n) => Some(shape[0].value * n)
  }

  function Prefix(name: string): string {
    "cannot produce literal for array '" + name + "': "
  }

  /** The exception a dimension tag that cannot be laid out raises; `axis`
      counts from zero. */
  function TagError(name: string, axis: nat, tag: DimTag): Error
    requires !(tag.FixedStrideTag? && tag.stride.Some?)
  {
    match tag
    case FixedStrideTag(_) =>
      LoopyError(Prefix(name) + "stride along axis " + NatToString(axis + 1)
                 + " (1-based) is not a compile-time constant")
    case OtherDimTag(typeName) =>
      LoopyError(Prefix(name) + "dim_tag type '" + typeName + "' not supported")
  }

  predicate GoodTag(tag: DimTag) {
    tag.FixedStrideTag? && tag.stride.Some?
  }

  /** The stride loop: every tag must be a fixed, known stride; the first
      that is not raises its error. */
  method CollectStrides(name: string, tags: seq<DimTag>) returns (r: Result<seq<int>>)
    ensures r.Success? <==> forall k :: 0 <= k < |tags| ==> GoodTag(tags[k])
    ensures r.Success? ==> |r.value| == |tags| && forall k :: 0 <= k < |tags| ==> r.value[k] == tags[k].stride.value
    ensures r.Failure? ==> exists k :: 0 <= k < |tags| && !GoodTag(tags[k])
                                       && (forall k' :: 0 <= k' < k ==> GoodTag(tags[k']))
                                       && r.error == TagError(name, k, tags[k])
  {
    var strides := [];
    for i := 0 to |tags|
      invariant |strides| == i
      invariant forall k :: 0 <= k < i ==> GoodTag(tags[k]) && strides[k] == tags[k].stride.value
    {
      var tag := tags[i];
      if tag.FixedStrideTag? {
        if tag.stride.None? {
          return Failure(TagError(name, i, tag));
        }
        strides := strides + [tag.stride.value];
      } else {
        return Failure(TagError(name, i, tag));
      }
    }
    return Success(strides);
  }

  /** The strides of an array that can be laid out, or the exception the
      checks raise, in the order they are made: the size, then each tag,
      then the offset. */
  function LayoutOf(arr: ArrayDecl): (r: Result<(nat, seq<int>)>)
    ensures r.Success? <==>
              && Size(arr.shape).Some?
              && (forall k :: 0 <= k < |arr.dimTags| ==> GoodTag(arr.dimTags[k]))
              && arr.offset == 0
    ensures r.Success? ==> r.value.0 == Size(arr.shape).value && |r.value.1| == |arr.dimTags|
                           && forall k :: 0 <= k < |arr.dimTags| ==> r.value.1[k] == arr.dimTags[k].stride.value
  {
    if Size(arr.shape).None? then
      Failure(LoopyError(Prefix(arr.name) + "shape is not a compile-time constant"))
    else if exists k :: 0 <= k < |arr.dimTags| && !GoodTag(arr.dimTags[k]) then
      var k := FirstBadTag(arr.dimTags, 0);
      Failure(TagError(arr.name, k, arr.dimTags[k]))
    else if arr.offset != 0 then
      Failure(AssertionError)
    else
      Success((Size(arr.shape).value, seq(|arr.dimTags|, k requires 0 <= k < |arr.dimTags| => arr.dimTags[k].stride.value)))
  }

  /** The first tag at or after `from` that cannot be laid out. */
  function FirstBadTag(tags: seq<DimTag>, from: nat): (k: nat)
    requires from <= |tags|
    requires exists k :: from <= k < |tags| && !GoodTag(tags[k])
    ensures from <= k < |tags| && !GoodTag(tags[k])
    ensures forall k' :: from <= k' < k ==> GoodTag(tags[k'])
    decreases |tags| - from
  {
    if !GoodTag(tags[from]) then from else FirstBadTag(tags, from + 1)
  }

  /** `np.ndindex` order: the index tuple of the `j`-th element in
      row-major order. */
  function Unravel(j: nat, shape: seq<nat>): (idx: seq<nat>)
    requires j < Product(shape)
    ensures |idx| == |shape|
  {
    if |shape| == 0 then []
    else
      var p := Product(shape[1..]);
      RowSplit(j, shape[0], p);
      [j / p] + Unravel(j % p, shape[1..])
  }

  /** Every index of the tuple lies within its axis. */
  lemma {:induction false} UnravelInBounds(j: nat, shape: seq<nat>)
    requires j < Product(shape)
    ensures forall k :: 0 <= k < |shape| ==> Unravel(j, shape)[k] < shape[k]
  {
    if |shape| > 0 {
      var p := Product(shape[1..]);
      RowSplit(j, shape[0], p);
      UnravelInBounds(j % p, shape[1..]);
      var idx := Unravel(j, shape);
      assert idx[1..] == Unravel(j % p, shape[1..]);
      forall k | 1 <= k < |shape| ensures idx[k] < shape[k] {
        assert idx[k] == idx[1..][k - 1] && shape[k] == shape[1..][k - 1];
      }
    }
  }

  /** An index below `n * p` splits into a row below `n` and a column below `p`. */
  lemma RowSplit(j: nat, n: nat, p: nat)
    requires j < n * p
    ensures p > 0 && j / p < n && j % p < p
  {
    NonZeroFactor(n, p);
    MulCancel(p, j / p, n);
  }

  lemma DivMod(j: nat, p: nat)
    requires p > 0
    ensures j == (j / p) * p + j % p
  {
  }

  lemma NonZeroFactor(n: nat, p: nat)
    requires n * p > 0
    ensures p > 0
  {
  }

  lemma MulMonotone(p: nat, a: nat, b: nat)
    requires a <= b
    ensures p * a <= p * b
  {
    assert p * b == p * a + p * (b - a);
  }

  lemma MulCancel(p: nat, a: nat, b: nat)
    requires p * a < p * b
    ensures a < b
  {
    if a >= b {
      MulMonotone(p, b, a);
    }
  }

  /** The flat position of an index tuple: Python's `zip` pairs the tuple
      with the strides and stops at the shorter of the two. */
  function Offset(idx: seq<nat>, strides: seq<int>): int {
    if |idx| == 0 || |strides| == 0 then 0
    else idx[0] * strides[0] + Offset(idx[1..], strides[1..])
  }

  /** The strides of a C-contiguous layout of `shape`. */
  function CStrides(shape: seq<nat>): (r: seq<int>)
    ensures |r| == |shape|
  {
    if |shape| == 0 then [] else [Product(shape[1..]) as int] + CStrides(shape[1..])
  }

  /** Under C-contiguous strides the `j`-th element in `np.ndindex` order
      lands at position `j`: the two orders agree. */
  lemma {:induction false} ContiguousOffset(j: nat, shape: seq<nat>)
    requires j < Product(shape)
    ensures Offset(Unravel(j, shape), CStrides(shape)) == j
  {
    if |shape| > 0 {
      var p := Product(shape[1..]);
      RowSplit(j, shape[0], p);
      var q, r := j / p, j % p;
      var idx, strides := Unravel(j, shape), CStrides(shape);
      ContiguousOffset(r, shape[1..]);
      assert idx[0] == q && idx[1..] == Unravel(r, shape[1..]);
      assert strides[0] == p && strides[1..] == CStrides(shape[1..]);
      assert Offset(idx, strides) == idx[0] * strides[0] + Offset(idx[1..], strides[1..]);
      DivMod(j, p);
    }
  }

  /** NumPy's indexing of a flat buffer of `size` cells: a negative position
      counts from the end; anything else out of range raises `IndexError`. */
  function Cell(pos: int, size: nat): (c: Option<nat>)
    ensures c.Some? <==> -(size as int) <= pos < size
    ensures c.Some? ==> c.value < size && (c.value == pos || c.value == pos + size)
  {
    if 0 <= pos < size then Some(pos)
    else if -(size as int) <= pos < 0 then Some(pos + size)
    else None
  }

  /** The flat position the `j`-th element of the value goes to. */
  function Position(j: nat, valueShape: seq<nat>, strides: seq<int>): int
    requires j < Product(valueShape)
  {
    Offset(Unravel(j, valueShape), strides)
  }

  /** The buffer after the first `n` elements of the value have been
      written, or the `IndexError` of the first that falls outside it. */
  function Written<T>(n: nat, valueShape: seq<nat>, flat: seq<T>, strides: seq<int>, size: nat, zero: T)
    : (r: Result<seq<T>>)
    requires n <= |flat| == Product(valueShape)
    ensures r.Success? ==> |r.value| == size
  {
    if n == 0 then Success(seq(size, _ => zero))
    else match Written(n - 1, valueShape, flat, strides, size, zero)
      case Failure(e) => Failure(e)
      case Success(data) =>
        match Cell(Position(n - 1, valueShape, strides), size)
        case None => Failure(IndexError("index out of bounds"))
        case Some(c) => Success(data[c := flat[n - 1]])
  }

  /** The first write that falls outside the buffer ends the loop: its
      exception is the outcome. */
  lemma {:induction false} WrittenFailureSticks<T>(n: nat, m: nat, valueShape: seq<nat>, flat: seq<T>,
                                                   strides: seq<int>, size: nat, zero: T)
    requires n <= m <= |flat| == Product(valueShape)
    requires Written(n, valueShape, flat, strides, size, zero).Failure?
    ensures Written(m, valueShape, flat, strides, size, zero) == Written(n, valueShape, flat, strides, size, zero)
    decreases m - n
  {
    if n < m {
      WrittenFailureSticks(n, m - 1, valueShape, flat, strides, size, zero);
    }
  }

  /** One more element written. */
  lemma WrittenStep<T>(j: nat, valueShape: seq<nat>, flat: seq<T>, strides: seq<int>, size: nat, zero: T,
                       data: seq<T>)
    requires j < |flat| == Product(valueShape)
    requires Written(j, valueShape, flat, strides, size, zero) == Success(data)
    ensures Cell(Position(j, valueShape, strides), size).None? ==>
              Written(j + 1, valueShape, flat, strides, size, zero) == Failure(IndexError("index out of bounds"))
    ensures Cell(Position(j, valueShape, strides), size).Some? ==>
              Written(j + 1, valueShape, flat, strides, size, zero)
              == Success(data[Cell(Position(j, valueShape, strides), size).value := flat[j]])
  {
  }

  /** The whole of `generate_linearized_array`: the layout checks, then every
      element of the value written at its position. */
  function Linearize<T>(arr: ArrayDecl, valueShape: seq<nat>, flat: seq<T>, zero: T): Result<seq<T>>
    requires |flat| == Product(valueShape)
  {
    match LayoutOf(arr)
    case Failure(e) => Failure(e)
    case Success(layout) => Written(|flat|, valueShape, flat, layout.1, layout.0, zero)
  }

  /** When every element lands inside the buffer and no two land in the same
      cell, each element is found at its cell and every other cell keeps the
      zero. */
  lemma {:induction false} WrittenCells<T>(n: nat, valueShape: seq<nat>, flat: seq<T>, strides: seq<int>,
                                           size: nat, zero: T)
    requires n <= |flat| == Product(valueShape)
    requires forall j :: 0 <= j < n ==> Cell(Position(j, valueShape, strides), size).Some?
    requires forall i, j :: 0 <= i < j < n ==>
               Cell(Position(i, valueShape, strides), size) != Cell(Position(j, valueShape, strides), size)
    ensures Written(n, valueShape, flat, strides, size, zero).Success?
    ensures |Written(n, valueShape, flat, strides, size, zero).value| == size
    ensures forall j :: 0 <= j < n ==>
              Written(n, valueShape, flat, strides, size, zero).value[Cell(Position(j, valueShape, strides), size).value]
              == flat[j]
    ensures forall c :: 0 <= c < size && (forall j :: 0 <= j < n ==> Cell(Position(j, valueShape, strides), size) != Some(c))
              ==> Written(n, valueShape, flat, strides, size, zero).value[c] == zero
  {
    if n > 0 {
      WrittenCells(n - 1, valueShape, flat, strides, size, zero);
      var prev := Written(n - 1, valueShape, flat, strides, size, zero).value;
      var c := Cell(Position(n - 1, valueShape, strides), size).value;
      var data := Written(n, valueShape, flat, strides, size, zero).value;
      assert data == prev[c := flat[n - 1]];
      forall j | 0 <= j < n - 1
        ensures data[Cell(Position(j, valueShape, strides), size).value] == flat[j]
      {
        assert Cell(Position(j, valueShape, strides), size) != Some(c);
      }
    }
  }

  /** An array declared C-contiguous over the value's own shape is the value
      in `np.ndindex` order. */
  lemma ContiguousLinearize<T>(arr: ArrayDecl, valueShape: seq<nat>, flat: seq<T>, zero: T)
    requires |flat| == Product(valueShape)
    requires Size(arr.shape) == Some(Product(valueShape)) && arr.offset == 0
    requires |arr.dimTags| == |valueShape|
    requires forall k :: 0 <= k < |arr.dimTags| ==> arr.dimTags[k] == FixedStrideTag(Some(CStrides(valueShape)[k]))
    ensures Linearize(arr, valueShape, flat, zero) == Success(flat)
  {
    var layout := LayoutOf(arr).value;
    var strides := CStrides(valueShape);
    assert layout.1 == strides;
    var size := |flat|;
    assert layout.0 == size;
    forall j | 0 <= j < size ensures Cell(Position(j, valueShape, strides), size) == Some(j) {
      ContiguousOffset(j, valueShape);
    }
    WrittenCells(size, valueShape, flat, strides, size, zero);
    var data := Written(size, valueShape, flat, strides, size, zero).value;
    forall c | 0 <= c < size ensures data[c] == flat[c] {
      assert Cell(Position(c, valueShape, strides), size) == Some(c);
    }
    assert data == flat;
  }

  /** The checks of `generate_linearized_array`, in order: the size, the
      stride loop, the offset. */
  method CheckLayout(arr: ArrayDecl) returns (r: Result<(nat, seq<int>)>)
    ensures r == LayoutOf(arr)
  {
    var size := Size(arr.shape);
    if size.None? {
      return Failure(LoopyError(Prefix(arr.name) + "shape is not a compile-time constant"));
    }
    var strides := CollectStrides(arr.name, arr.dimTags);
    if strides.Failure? {
      var k :| 0 <= k < |arr.dimTags| && !GoodTag(arr.dimTags[k])
               && (forall k' :: 0 <= k' < k ==> GoodTag(arr.dimTags[k']))
               && strides.error == TagError(arr.name, k, arr.dimTags[k]);
      assert FirstBadTag(arr.dimTags, 0) == k by {
        var f := FirstBadTag(arr.dimTags, 0);
        assert !(f < k) && !(k < f);
      }
      return Failure(strides.error);
    }
    if arr.offset != 0 {
      return Failure(AssertionError);
    }
    assert strides.value == LayoutOf(arr).value.1;
    return Success((size.value, strides.value));
  }

  /** The store loop of `generate_linearized_array`: each element of the
      value, in `np.ndindex` order, written into the buffer at its position. */
  method StoreValues<T>(data: array<T>, valueShape: seq<nat>, flat: seq<T>, strides: seq<int>, ghost zero: T)
    returns (r: Result<()>)
    requires |flat| == Product(valueShape)
    requires Written(0, valueShape, flat, strides, data.Length, zero) == Success(data[..])
    modifies data
    ensures r.Success? <==> Written(|flat|, valueShape, flat, strides, data.Length, zero).Success?
    ensures r.Failure? ==> Written(|flat|, valueShape, flat, strides, data.Length, zero) == Failure(r.error)
    ensures r.Success? ==> Written(|flat|, valueShape, flat, strides, data.Length, zero) == Success(data[..])
  {
    var size := data.Length;
    for j := 0 to |flat|
      invariant Written(j, valueShape, flat, strides, size, zero) == Success(data[..])
    {
      ghost var before := data[..];
      var c := Cell(Offset(Unravel(j, valueShape), strides), size);
      WrittenStep(j, valueShape, flat, strides, size, zero, before);
      if c.None? {
        WrittenFailureSticks(j + 1, |flat|, valueShape, flat, strides, size, zero);
        return Failure(IndexError("index out of bounds"));
      }
      data[c.value] := flat[j];
      assert data[..] == before[c.value := flat[j]];
    }
    return Success(());
  }

  /** `generate_linearized_array`: the checks, a zero-filled buffer of the
      array's size, then each element of the value (given flat, in
      `np.ndindex` order) stored at the sum of its indices times the strides. */
  method GenerateLinearizedArray<T>(arr: ArrayDecl, valueShape: seq<nat>, flat: seq<T>, zero: T)
    returns (r: Result<array<T>>)
    requires |flat| == Product(valueShape)
    ensures r.Success? <==> Linearize(arr, valueShape, flat, zero).Success?
    ensures r.Failure? ==> Linearize(arr, valueShape, flat, zero) == Failure(r.error)
    ensures r.Success? ==> fresh(r.value) && r.value[..] == Linearize(arr, valueShape, flat, zero).value
  {
    var layout := CheckLayout(arr);
    if layout.Failure? {
      return Failure(layout.error);
    }
    var data := new T[layout.value.0](_ => zero);
    assert data[..] == seq(layout.value.0, _ => zero);
    var stored := StoreValues(data, valueShape, flat, layout.value.1, zero);
    if stored.Failure? {
      return Failure(stored.error);
    }
    return Success(data);
  }
}
