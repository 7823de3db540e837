/** An isl space reduced to the names of its dimensions. An isl set or map is
    represented by its space alone: the affine constraints are not modelled.
    In isl a set's dimensions are its output dimensions (`isl_dim_set` equals
    `isl_dim_out`), so a set has no input dimensions here either. A dimension
    without a name carries the empty string. */
module IslSpace {
  import opened Wrappers

  datatype DimType = Param | In | Out

  /** `isl.dim_type.set`. */
  const SetDim: DimType := Out

  datatype Space = Space(params: seq<string>, inDims: seq<string>, outDims: seq<string>)

  /** `get_var_names(dim_type)`. */
  function Names(sp: Space, dt: DimType): seq<string> {
    match dt
    case Param => sp.params
    case In => sp.inDims
    case Out => sp.outDims
  }

  function WithNames(sp: Space, dt: DimType, names: seq<string>): (r: Space)
    ensures Names(r, dt) == names
    ensures forall other :: other != dt ==> Names(r, other) == Names(sp, other)
  {
    match dt
    case Param => sp.(params := names)
    case In => sp.(inDims := names)
    case Out => sp.(outDims := names)
  }

  /** `insert_dims(dt, pos, n)`: `n` unnamed dimensions at position `pos`. */
  function InsertDims(sp: Space, dt: DimType, pos: int, n: nat): (r: Result<Space>)
    ensures r.Success? <==> 0 <= pos <= |Names(sp, dt)|
    ensures r.Success? ==> Names(r.value, dt) == Names(sp, dt)[..pos] + seq(n, _ => "") + Names(sp, dt)[pos..]
    ensures r.Success? ==> forall o :: o != dt ==> Names(r.value, o) == Names(sp, o)
  {
    var names := Names(sp, dt);
    if 0 <= pos <= |names| then
      Success(WithNames(sp, dt, names[..pos] + seq(n, _ => "") + names[pos..]))
    else
      Failure(IslError("position out of bounds"))
  }

  /** `set_dim_name(dt, pos, name)`. */
  function SetDimName(sp: Space, dt: DimType, pos: int, name: string): (r: Result<Space>)
    ensures r.Success? <==> 0 <= pos < |Names(sp, dt)|
    ensures r.Success? ==> Names(r.value, dt) == Names(sp, dt)[pos := name]
    ensures r.Success? ==> forall o :: o != dt ==> Names(r.value, o) == Names(sp, o)
  {
    var names := Names(sp, dt);
    if 0 <= pos < |names| then Success(WithNames(sp, dt, names[pos := name]))
    else Failure(IslError("position out of bounds"))
  }

  /** `move_dims(dst, dstPos, src, srcPos, 1)` between two different kinds:
      the dimension leaves `src` and is inserted, with its name, into `dst`. */
  function MoveDim(sp: Space, dst: DimType, dstPos: int, src: DimType, srcPos: int): (r: Result<Space>)
    requires dst != src
    ensures r.Success? <==> 0 <= srcPos < |Names(sp, src)| && 0 <= dstPos <= |Names(sp, dst)|
    ensures r.Success? ==> Names(r.value, src) == Names(sp, src)[..srcPos] + Names(sp, src)[srcPos + 1..]
    ensures r.Success? ==>
              Names(r.value, dst) == Names(sp, dst)[..dstPos] + [Names(sp, src)[srcPos]] + Names(sp, dst)[dstPos..]
    ensures r.Success? ==> forall o :: o != dst && o != src ==> Names(r.value, o) == Names(sp, o)
  {
    var s := Names(sp, src);
    var d := Names(sp, dst);
    if 0 <= srcPos < |s| && 0 <= dstPos <= |d| then
      Success(WithNames(WithNames(sp, src, s[..srcPos] + s[srcPos + 1..]), dst,
                        d[..dstPos] + [s[srcPos]] + d[dstPos..]))
    else
      Failure(IslError("position out of bounds"))
  }

  /** `find_dim_by_name`: the first position holding `name`, or -1. */
  function FindDimByName(names: seq<string>, name: string): (r: int)
    ensures -1 <= r < |names|
    ensures r == -1 <==> name !in names
    ensures r >= 0 ==> names[r] == name && name !in names[..r]
  {
    if |names| == 0 then -1
    else if names[0] == name then 0
    else
      var k := FindDimByName(names[1..], name);
      assert names == [names[0]] + names[1..];
      if k == -1 then -1 else k + 1
  }
}
