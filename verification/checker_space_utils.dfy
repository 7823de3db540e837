/** The dimension-name bookkeeping of the linearization checker's utilities
    (loopy/schedule/checker/utils.py), over spaces reduced to name lists. */
module CheckerSpaceUtils {
  import opened Wrappers
  import opened StringOrder
  import opened Decimal
  import opened IslSpace

  /** `map_names_match_check`: with `assertPermutation` the names of kind `dt`
      must be the desired names up to order and repetition; otherwise, with
      `assertSubset`, they must all be desired names; with neither flag nothing
      is checked. A failed check raises `ValueError`. */
  function MapNamesMatchCheck(sp: Space, desired: seq<string>, dt: DimType,
                              assertSubset: bool, assertPermutation: bool): (r: Result<()>)
    ensures r.Failure? ==> r.error.ValueError?
    ensures assertPermutation ==> (r.Failure? <==> Elems(Names(sp, dt)) != Elems(desired))
    ensures !assertPermutation && assertSubset ==>
              (r.Failure? <==> !(Elems(Names(sp, dt)) <= Elems(desired)))
    ensures !assertPermutation && !assertSubset ==> r.Success?
  {
    var names := Names(sp, dt);
    if assertPermutation then
      if Elems(names) != Elems(desired) then Failure(ValueError("set of map names does not match target set"))
      else Success(())
    else if assertSubset then
      if !(Elems(names) <= Elems(desired)) then Failure(ValueError("map names are not a subset of target names"))
      else Success(())
    else Success(())
  }

  /** What the reordering loop of `InsertMissingDimsAndReorderByName` keeps,
      for distinct names: the first `idx` names are the first `idx` desired
      names, and every later name is a desired name not yet placed. */
  ghost predicate ReorderInv(cur: seq<string>, desired: seq<string>, idx: nat) {
    && idx <= |cur|
    && idx <= |desired|
    && cur[..idx] == desired[..idx]
    && Distinct(cur)
    && forall k :: idx <= k < |cur| ==> cur[k] in desired[idx..]
  }

  lemma ReorderInsertStep(cur: seq<string>, desired: seq<string>, idx: nat)
    requires Distinct(desired) && ReorderInv(cur, desired, idx)
    requires idx < |desired| && desired[idx] !in cur
    ensures ReorderInv(cur[..idx] + [desired[idx]] + cur[idx..], desired, idx + 1)
  {
    var nw := cur[..idx] + [desired[idx]] + cur[idx..];
    assert nw[..idx + 1] == desired[..idx + 1];
    forall i, j | 0 <= i < j < |nw| ensures nw[i] != nw[j] {
      if i != idx && j != idx {
        var ci := if i < idx then i else i - 1;
        var cj := if j < idx then j else j - 1;
        assert nw[i] == cur[ci] && nw[j] == cur[cj];
      }
    }
    forall k | idx + 1 <= k < |nw| ensures nw[k] in desired[idx + 1..] {
      assert nw[k] == cur[k - 1];
      var m :| idx <= m < |desired| && desired[m] == cur[k - 1];
      assert m != idx;
      assert desired[m] == desired[idx + 1..][m - idx - 1];
    }
  }

  lemma ReorderMoveStep(cur: seq<string>, desired: seq<string>, idx: nat, c: nat)
    requires Distinct(desired) && ReorderInv(cur, desired, idx)
    requires idx < |desired| && c < |cur| && cur[c] == desired[idx]
    ensures idx <= c
    ensures c != idx ==>
      ReorderInv((cur[..c] + cur[c + 1..])[..idx] + [desired[idx]] + (cur[..c] + cur[c + 1..])[idx..],
                 desired, idx + 1)
    ensures c == idx ==> ReorderInv(cur, desired, idx + 1)
  {
    var name := desired[idx];
    if c == idx {
      assert cur[..idx + 1] == desired[..idx + 1];
      forall k | idx + 1 <= k < |cur| ensures cur[k] in desired[idx + 1..] {
        var m :| idx <= m < |desired| && desired[m] == cur[k];
        assert m != idx;
        assert desired[m] == desired[idx + 1..][m - idx - 1];
      }
    } else {
      var removed := cur[..c] + cur[c + 1..];
      var nw := removed[..idx] + [name] + removed[idx..];
      assert forall k :: 0 <= k < |nw| ==>
        nw[k] == cur[if k < idx then k else if k == idx then c else if k <= c then k - 1 else k];
      assert nw[..idx + 1] == desired[..idx + 1];
      forall k | idx + 1 <= k < |nw| ensures nw[k] in desired[idx + 1..] {
        var ck := if k <= c then k - 1 else k;
        assert nw[k] == cur[ck] && ck != c;
        var m :| idx <= m < |desired| && desired[m] == cur[ck];
        assert m != idx;
        assert desired[m] == desired[idx + 1..][m - idx - 1];
      }
    }
  }

  /** Insert one dimension named `name` at position `idx` of kind `dt`. */
  method InsertNamedDim(sp: Space, dt: DimType, idx: nat, name: string) returns (r: Result<Space>)
    ensures r.Failure? ==> r.error.IslError?
    ensures r.Success? <==> idx <= |Names(sp, dt)|
    ensures r.Success? ==> Names(r.value, dt) == Names(sp, dt)[..idx] + [name] + Names(sp, dt)[idx..]
    ensures r.Success? ==> forall o :: o != dt ==> Names(r.value, o) == Names(sp, o)
  {
    var ins := InsertDims(sp, dt, idx, 1);
    if ins.Failure? {
      return Failure(ins.error);
    }
    r := SetDimName(ins.value, dt, idx, name);
    assert r.Success?;
  }

  /** Move the dimension at `from` of kind `dt` to position `to`, by parking it
      at parameter position `otherDimLen` and moving it back. */
  method MoveThroughParams(sp: Space, dt: DimType, from: nat, to: nat, otherDimLen: nat)
    returns (r: Result<Space>)
    requires dt != Param && otherDimLen == |sp.params|
    ensures r.Failure? ==> r.error.IslError?
    ensures r.Success? <==> from < |Names(sp, dt)| && to < |Names(sp, dt)|
    ensures r.Success? ==> r.value.params == sp.params
    ensures r.Success? ==> forall o :: o != dt && o != Param ==> Names(r.value, o) == Names(sp, o)
    ensures r.Success? ==>
              var cur := Names(sp, dt);
              var removed := cur[..from] + cur[from + 1..];
              Names(r.value, dt) == removed[..to] + [cur[from]] + removed[to..]
  {
    var parked := MoveDim(sp, Param, otherDimLen, dt, from);
    if parked.Failure? {
      return Failure(parked.error);
    }
    assert Names(parked.value, Param) == sp.params + [Names(sp, dt)[from]];
    r := MoveDim(parked.value, dt, to, Param, otherDimLen);
    if r.Success? {
      assert (sp.params + [Names(sp, dt)[from]])[..otherDimLen] == sp.params;
    }
  }

  /** One iteration of the reordering loop: place `desired[idx]` at position `idx`. */
  method ReorderStep(newSet: Space, dt: DimType, desired: seq<string>, idx: nat, otherDimLen: nat)
    returns (r: Result<Space>)
    requires dt != Param && idx < |desired| && otherDimLen == |newSet.params|
    ensures r.Failure? ==> r.error.IslError?
    ensures r.Success? ==> r.value.params == newSet.params
    ensures r.Success? ==> forall o :: o != dt && o != Param ==> Names(r.value, o) == Names(newSet, o)
    ensures Distinct(desired) && ReorderInv(Names(newSet, dt), desired, idx) ==>
              r.Success? && ReorderInv(Names(r.value, dt), desired, idx + 1)
  {
    var name := desired[idx];
    var cur := Names(newSet, dt);
    ghost var good := Distinct(desired) && ReorderInv(cur, desired, idx);
    if name !in cur {
      // the name is missing: add a dimension for it
      r := InsertNamedDim(newSet, dt, idx, name);
      if r.Success? {
        assert Names(r.value, Param) == Names(newSet, Param);
      }
      if good {
        ReorderInsertStep(cur, desired, idx);
      }
    } else {
      var currentIdx := FindDimByName(cur, name);
      if good {
        ReorderMoveStep(cur, desired, idx, currentIdx);
      }
      if currentIdx == idx {
        r := Success(newSet);
      } else {
        r := MoveThroughParams(newSet, dt, currentIdx, idx, otherDimLen);
      }
    }
  }

  lemma ReorderDone(sp: Space, newSet: Space, dt: DimType, desired: seq<string>)
    requires dt != Param && newSet.params == sp.params
    requires forall o :: o != dt && o != Param ==> Names(newSet, o) == Names(sp, o)
    requires ReorderInv(Names(newSet, dt), desired, |desired|)
    ensures newSet == WithNames(sp, dt, desired)
  {
    var nw := Names(newSet, dt);
    var tail := nw[|desired|..];
    assert forall j :: 0 <= j < |tail| ==> tail[j] == nw[|desired| + j];
    assert Elems(tail) == {};
    ElemsEmpty(tail);
    assert nw == nw[..|desired|] + tail;
    match dt {
      case In => assert Names(newSet, Out) == Names(sp, Out);
      case Out => assert Names(newSet, In) == Names(sp, In);
    }
  }

  /** `insert_missing_dims_and_reorder_by_name`: after checking that every
      existing name of kind `dt` is desired, walks the desired names in order,
      inserting a missing one at its position or moving an existing one there
      through the parameter tuple (park at parameter position `|params|`, then
      move back). With distinct names the result has exactly the desired names
      in the desired order, and the parameters are those it started with. */
  method InsertMissingDimsAndReorderByName(sp: Space, dt: DimType, desired: seq<string>)
    returns (r: Result<Space>)
    requires dt != Param
    ensures (r.Failure? && r.error.ValueError?) <==> !(Elems(Names(sp, dt)) <= Elems(desired))
    ensures r.Success? ==> r.value.params == sp.params
    ensures r.Success? ==> forall o :: o != dt && o != Param ==> Names(r.value, o) == Names(sp, o)
    ensures (Distinct(desired) && Distinct(Names(sp, dt)) && Elems(Names(sp, dt)) <= Elems(desired))
              ==> r == Success(WithNames(sp, dt, desired))
  {
    var check := MapNamesMatchCheck(sp, desired, dt, true, false);
    if check.Failure? {
      return Failure(check.error);
    }
    var otherDimLen := |sp.params|;
    var newSet := sp;
    ghost var good := Distinct(desired) && Distinct(Names(sp, dt));
    assert good ==> ReorderInv(Names(sp, dt), desired, 0) by {
      forall k | 0 <= k < |Names(sp, dt)| ensures Names(sp, dt)[k] in desired {
        assert Names(sp, dt)[k] in Elems(Names(sp, dt));
      }
    }
    for idx := 0 to |desired|
      invariant newSet.params == sp.params
      invariant forall o :: o != dt && o != Param ==> Names(newSet, o) == Names(sp, o)
      invariant good ==> ReorderInv(Names(newSet, dt), desired, idx)
    {
      var step := ReorderStep(newSet, dt, desired, idx, otherDimLen);
      if step.Failure? {
        return Failure(step.error);
      }
      newSet := step.value;
    }
    if good {
      ReorderDone(sp, newSet, dt, desired);
    }
    return Success(newSet);
  }

  /** Two spaces with the same names of every kind are the same space. */
  lemma SpaceFromNames(a: Space, b: Space)
    requires forall o :: Names(a, o) == Names(b, o)
    ensures a == b
  {
    assert Names(a, Param) == Names(b, Param);
    assert Names(a, In) == Names(b, In);
    assert Names(a, Out) == Names(b, Out);
  }

  /** The naming loop of `add_dims_to_isl_set`: `set_dim_name` for each name,
      at consecutive positions from `start`. */
  method NameDimsFrom(sp: Space, dt: DimType, start: nat, names: seq<string>) returns (r: Space)
    requires start + |names| <= |Names(sp, dt)|
    ensures Names(r, dt) == Names(sp, dt)[..start] + names + Names(sp, dt)[start + |names|..]
    ensures forall o :: o != dt ==> Names(r, o) == Names(sp, o)
  {
    var orig := Names(sp, dt);
    r := sp;
    for i := 0 to |names|
      invariant |Names(r, dt)| == |orig|
      invariant forall k :: 0 <= k < |orig| ==>
                  Names(r, dt)[k] == if start <= k < start + i then names[k - start] else orig[k]
      invariant forall o :: o != dt ==> Names(r, o) == Names(sp, o)
    {
      var named := SetDimName(r, dt, start + i, names[i]);
      r := named.value;
    }
    assert Names(r, dt) == orig[..start] + names + orig[start + |names|..];
  }

  /** `add_dims_to_isl_set`: insert `|names|` dimensions at `newIdxStart` and
      name them in order. `names[0]` is read after the insertion, so an empty
      list raises `IndexError` (and a bad position an isl error first). */
  method AddDimsToIslSet(sp: Space, dt: DimType, names: seq<string>, newIdxStart: int)
    returns (r: Result<Space>)
    ensures r.Success? <==> 0 <= newIdxStart <= |Names(sp, dt)| && |names| > 0
    ensures r.Failure? && 0 <= newIdxStart <= |Names(sp, dt)| ==> r.error.IndexError?
    ensures r.Failure? && !(0 <= newIdxStart <= |Names(sp, dt)|) ==> r.error.IslError?
    ensures r.Success? ==>
              Names(r.value, dt) == Names(sp, dt)[..newIdxStart] + names + Names(sp, dt)[newIdxStart..]
    ensures r.Success? ==> forall o :: o != dt ==> Names(r.value, o) == Names(sp, o)
  {
    var orig := Names(sp, dt);
    var ins := InsertDims(sp, dt, newIdxStart, |names|);
    if ins.Failure? {
      return Failure(ins.error);
    }
    if |names| == 0 {
      return Failure(IndexError("list index out of range"));
    }
    var blank := Names(ins.value, dt);
    assert blank[..newIdxStart] == orig[..newIdxStart];
    assert blank[newIdxStart + |names|..] == orig[newIdxStart..];
    var named := NameDimsFrom(ins.value, dt, newIdxStart, names);
    return Success(named);
  }

  /** The names one dimension kind ends with in `set_all_isl_space_names`:
      given a non-empty list, it overwrites the first positions (an isl error,
      `None` here, if there are fewer dimensions); otherwise every dimension
      is called `prefix` followed by its position. */
  function RenamedKind(orig: seq<string>, names: Option<seq<string>>, prefix: string): Option<seq<string>> {
    if names.Some? && |names.value| > 0 then
      if |names.value| <= |orig| then Some(names.value + orig[|names.value|..]) else None
    else
      Some(IndexedNames(prefix, |orig|))
  }

  /** The first block of `set_all_isl_space_names` when names are given:
      `set_dim_name` position by position, failing at the first position the
      space does not have. */
  method OverwriteNames(sp: Space, dt: DimType, given: seq<string>) returns (r: Result<Space>)
    ensures r.Failure? <==> |given| > |Names(sp, dt)|
    ensures r.Failure? ==> r.error.IslError?
    ensures r.Success? ==> Names(r.value, dt) == given + Names(sp, dt)[|given|..]
    ensures r.Success? ==> forall o :: o != dt ==> Names(r.value, o) == Names(sp, o)
  {
    var orig := Names(sp, dt);
    var cur := sp;
    for i := 0 to |given|
      invariant i <= |orig|
      invariant |Names(cur, dt)| == |orig|
      invariant forall k :: 0 <= k < |orig| ==> Names(cur, dt)[k] == if k < i then given[k] else orig[k]
      invariant forall o :: o != dt ==> Names(cur, o) == Names(sp, o)
    {
      var named := SetDimName(cur, dt, i, given[i]);
      if named.Failure? {
        return Failure(named.error);
      }
      cur := named.value;
    }
    assert Names(cur, dt) == given + orig[|given|..];
    return Success(cur);
  }

  /** The default naming of `set_all_isl_space_names`: `prefix` followed by
      the position. */
  method DefaultNames(sp: Space, dt: DimType, prefix: string) returns (r: Space)
    ensures Names(r, dt) == IndexedNames(prefix, |Names(sp, dt)|)
    ensures forall o :: o != dt ==> Names(r, o) == Names(sp, o)
  {
    var orig := Names(sp, dt);
    r := sp;
    for i := 0 to |orig|
      invariant |Names(r, dt)| == |orig|
      invariant forall k :: 0 <= k < i ==> Names(r, dt)[k] == prefix + NatToString(k)
      invariant forall o :: o != dt ==> Names(r, o) == Names(sp, o)
    {
      var named := SetDimName(r, dt, i, prefix + NatToString(i));
      r := named.value;
    }
    assert Names(r, dt) == IndexedNames(prefix, |orig|);
  }

  /** One of the three blocks of `set_all_isl_space_names`. */
  method RenameKind(sp: Space, dt: DimType, names: Option<seq<string>>, prefix: string)
    returns (r: Result<Space>)
    ensures RenamedKind(Names(sp, dt), names, prefix).None? <==> r.Failure?
    ensures r.Failure? ==> r.error.IslError?
    ensures r.Success? ==> r.value == WithNames(sp, dt, RenamedKind(Names(sp, dt), names, prefix).value)
  {
    if names.Some? && |names.value| > 0 {
      r := OverwriteNames(sp, dt, names.value);
    } else {
      var named := DefaultNames(sp, dt, prefix);
      r := Success(named);
    }
    if r.Success? {
      SpaceFromNames(r.value, WithNames(sp, dt, RenamedKind(Names(sp, dt), names, prefix).value));
    }
  }

  /** `set_all_isl_space_names`: rename parameters (`p0, p1, ...` by default),
      input dimensions (`i0, ...`) and output dimensions (`o0, ...`). */
  method SetAllIslSpaceNames(sp: Space, paramNames: Option<seq<string>>, inNames: Option<seq<string>>,
                             outNames: Option<seq<string>>)
    returns (r: Result<Space>)
    ensures r.Success? <==> RenamedKind(sp.params, paramNames, "p").Some?
                            && RenamedKind(sp.inDims, inNames, "i").Some?
                            && RenamedKind(sp.outDims, outNames, "o").Some?
    ensures r.Failure? ==> r.error.IslError?
    ensures r.Success? ==> r.value == Space(RenamedKind(sp.params, paramNames, "p").value,
                                            RenamedKind(sp.inDims, inNames, "i").value,
                                            RenamedKind(sp.outDims, outNames, "o").value)
  {
    var withParams := RenameKind(sp, Param, paramNames, "p");
    if withParams.Failure? {
      return withParams;
    }
    var withIn := RenameKind(withParams.value, In, inNames, "i");
    if withIn.Failure? {
      return withIn;
    }
    r := RenameKind(withIn.value, Out, outNames, "o");
  }

  /** Naming as many unnamed dimensions as there are names yields the names,
      the empty list included. */
  lemma RenamedBlank(names: seq<string>, prefix: string)
    ensures RenamedKind(seq(|names|, _ => ""), Some(names), prefix) == Some(names)
  {
    var blank: seq<string> := seq(|names|, _ => "");
    if |names| == 0 {
      assert |IndexedNames(prefix, 0)| == 0;
    } else {
      assert blank[|names|..] == [];
      assert names + blank[|names|..] == names;
    }
  }

  /** `get_isl_space`: a fresh space with exactly the given names. */
  method GetIslSpace(paramNames: seq<string>, inNames: seq<string>, outNames: seq<string>)
    returns (r: Result<Space>)
    ensures r == Success(Space(paramNames, inNames, outNames))
  {
    var blank := Space(seq(|paramNames|, _ => ""), seq(|inNames|, _ => ""), seq(|outNames|, _ => ""));
    RenamedBlank(paramNames, "p");
    RenamedBlank(inNames, "i");
    RenamedBlank(outNames, "o");
    r := SetAllIslSpaceNames(blank, Some(paramNames), Some(inNames), Some(outNames));
  }

  /** The argument of `append_marker_to_strings`, which checks that it got a list. */
  datatype StringsArg = ListArg(items: seq<string>) | NotAList

  /** `append_marker_to_strings`: each string followed by the marker. */
  function AppendMarkerToStrings(strings: StringsArg, marker: string): (r: Result<seq<string>>)
    ensures r.Failure? <==> strings.NotAList?
    ensures r.Failure? ==> r.error.ValueError?
    ensures r.Success? ==> |r.value| == |strings.items|
    ensures r.Success? ==> forall k :: 0 <= k < |r.value| ==>
              && |r.value[k]| == |strings.items[k]| + |marker|
              && r.value[k][..|strings.items[k]|] == strings.items[k]
              && r.value[k][|strings.items[k]|..] == marker
  {
    match strings
    case NotAList => Failure(ValueError("append_marker_to_strings did not receive a list"))
    case ListArg(items) => Success(seq(|items|, k requires 0 <= k < |items| => items[k] + marker))
  }

  /** `append_apostrophes`. */
  function AppendApostrophes(strings: StringsArg): (r: Result<seq<string>>)
    ensures r == AppendMarkerToStrings(strings, "'")
  {
    AppendMarkerToStrings(strings, "'")
  }

  /** Appending the same marker keeps distinct names distinct (and cannot make
      equal names differ): priming a list of dimension names is injective. */
  lemma AppendMarkerPreservesDistinct(items: seq<string>, marker: string)
    ensures Distinct(AppendMarkerToStrings(ListArg(items), marker).value) <==> Distinct(items)
  {
    var marked := AppendMarkerToStrings(ListArg(items), marker).value;
    forall i, j | 0 <= i < j < |items| ensures marked[i] == marked[j] <==> items[i] == items[j] {
      if marked[i] == marked[j] {
        assert |items[i]| == |items[j]|;
        assert items[i] == marked[i][..|items[i]|];
      }
    }
  }

  /** `append_marker_to_isl_map_var_names`: the marker appended to every name
      of kind `dt`. */
  method AppendMarkerToIslMapVarNames(sp: Space, dt: DimType, marker: string) returns (r: Space)
    ensures Names(r, dt) == seq(|Names(sp, dt)|, k requires 0 <= k < |Names(sp, dt)| => Names(sp, dt)[k] + marker)
    ensures forall o :: o != dt ==> Names(r, o) == Names(sp, o)
  {
    var orig := Names(sp, dt);
    r := sp;
    for i := 0 to |orig|
      invariant |Names(r, dt)| == |orig|
      invariant forall k :: 0 <= k < i ==> Names(r, dt)[k] == orig[k] + marker
      invariant forall k :: i <= k < |orig| ==> Names(r, dt)[k] == orig[k]
      invariant forall o :: o != dt ==> Names(r, o) == Names(sp, o)
    {
      var named := SetDimName(r, dt, i, orig[i] + marker);
      r := named.value;
    }
  }

  /** `create_new_isl_set_with_primes`: the special case of the above for the
      dimensions of a set. */
  method CreateNewIslSetWithPrimes(sp: Space, marker: string) returns (r: Space)
    ensures |r.outDims| == |sp.outDims|
    ensures forall k :: 0 <= k < |sp.outDims| ==> r.outDims[k] == sp.outDims[k] + marker
    ensures r.params == sp.params && r.inDims == sp.inDims
  {
    r := AppendMarkerToIslMapVarNames(sp, SetDim, marker);
    assert Names(r, Param) == sp.params && Names(r, In) == sp.inDims;
  }

  /** `list_var_names_in_isl_sets`: every name of kind `dt` in any of the sets,
      once each, in ascending order (`sorted` of the collected set). */
  method ListVarNamesInIslSets(sets: seq<Space>, dt: DimType) returns (r: seq<string>)
    ensures StrictlySorted(r)
    ensures forall n :: n in r <==> exists k :: 0 <= k < |sets| && n in Names(sets[k], dt)
  {
    r := [];
    for i := 0 to |sets|
      invariant StrictlySorted(r)
      invariant forall n :: n in r <==> exists k :: 0 <= k < i && n in Names(sets[k], dt)
    {
      var names := Names(sets[i], dt);
      for j := 0 to |names|
        invariant StrictlySorted(r)
        invariant forall n :: n in r <==> (exists k :: 0 <= k < i && n in Names(sets[k], dt)) || n in names[..j]
      {
        var grown := InsertSorted(r, names[j]);
        assert Elems(grown) == Elems(r) + {names[j]};
        assert forall n :: n in grown <==> n in Elems(grown);
        assert forall n :: n in r <==> n in Elems(r);
        assert names[..j + 1] == names[..j] + [names[j]];
        r := grown;
      }
      assert names[..|names|] == names;
      assert forall n :: n in names ==> n in Names(sets[i], dt);
    }
  }
}
