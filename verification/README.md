# Loopy linearization checker and C code-generation helpers, in Dafny

This project models two parts of loopy, the Python code generator for array
kernels.

**The linearization checker** (`loopy/schedule/checker`) decides whether a
linearization respects a kernel's dependencies. A linearization is the
ordered list of `EnterLoop`, `LeaveLoop`, `RunInstruction` and `Barrier`
items.

- `LexSchedule` walks the linearization. It gives the two statements of a
  dependency a point each in a lexicographic time space, then pads the
  points to a common length. The model proves that the earlier statement
  gets the lexicographically smaller point.
- The model also covers:
  - the isl space helpers of `utils.py`, over a space of three name lists;
  - the search for orderings of a graph;
  - the concurrent-loop filter;
  - the loop over the dependencies that aggregates the verdict.
- isl's relations themselves are opaque. A map is its space plus a handle.
  The statement instance ordering and isl's subset test are parameters.

**Code generation for the C target** covers:

- the floor-division and modulo helpers, written over C99's truncating `/`
  and `%` and proved equal to floor division;
- the preamble selection;
- `int_pow` for a non-negative exponent, proved to compute `x ** n`;
- `generate_linearized_array`, proved against a specification of the
  buffer it fills;
- `process_preambles`: a stable sort by tag, then first-wins deduplication;
- the merging of host and device preambles in `all_code`;
- `CodeGenerationContext.copy`.

`copy` cannot clear the vectorization info. This is a finding; see below.

Module layout:

| file | module |
|---|---|
| `wrappers.dfy` | `Result`, `Option` and the exception kinds |
| `decimal.dfy` | `str(n)` for integers |
| `string_order.dfy` | Python's string order and `sorted(set(...))` |
| `isl_space.dfy` | isl spaces and the isl calls used on them |
| `linearization.dfy` | linearization items |
| `checker_space_utils.dfy` | space helpers of `utils.py` |
| `checker_kernel_utils.dfy` | kernel helpers of `utils.py` |
| `checker_orderings.dfy` | ordering search of `utils.py` |
| `schedule.dfy` | the `schedule.py` walk and the `LexSchedule` class |
| `schedule_ordering.dfy` | its ordering proofs |
| `checker.dfy` | `__init__.py` of the checker |
| `c_int_helpers.dfy` | the C integer helpers |
| `c_preambles.dfy` | preamble selection |
| `linearized_array.dfy` | `generate_linearized_array` |
| `codegen_result.dfy` | `codegen/result.py` |

## Model

| member | source | states |
|---|---|---|
| IslSpace.InsertDims | loopy/schedule/checker/utils.py:38-41 | inserting `n` unnamed dimensions succeeds exactly when the position is within the kind; the names are spliced in there and the other kinds are unchanged |
| IslSpace.SetDimName | loopy/schedule/checker/utils.py:41-43 | renaming succeeds exactly for an existing position; only that name changes |
| IslSpace.MoveDim | loopy/schedule/checker/utils.py:112-117 | moving one dimension between kinds succeeds exactly for valid positions; it is removed from the source kind, inserted in the destination kind, and nothing else changes |
| IslSpace.FindDimByName | loopy/schedule/checker/utils.py:107 | returns -1 exactly when the name is absent, otherwise the first position holding it |
| IslSpace.WithNames | loopy/schedule/checker/utils.py:327-356 | replaces the names of one kind and leaves the other kinds as they were |
| CheckerSpaceUtils.MapNamesMatchCheck | loopy/schedule/checker/utils.py:47-65 | with `assert_permutation`, `ValueError` exactly when the name sets differ; otherwise with `assert_subset`, `ValueError` exactly when the names are not a subset; otherwise no error |
| CheckerSpaceUtils.InsertNamedDim | loopy/schedule/checker/utils.py:102-105 | insert one dimension and name it: `IslError` exactly when the index is out of range, otherwise the name lands at that index |
| CheckerSpaceUtils.MoveThroughParams | loopy/schedule/checker/utils.py:110-117 | the two-step move through the parameters leaves the parameters as they were and moves the dimension from `current_idx` to `desired_idx` |
| CheckerSpaceUtils.ReorderStep | loopy/schedule/checker/utils.py:98-117 | one iteration of the loop extends the correctly ordered prefix by one name and keeps the names distinct |
| CheckerSpaceUtils.ReorderInsertStep | loopy/schedule/checker/utils.py:99-105 | inserting a missing name keeps the reordering invariant with a prefix one longer |
| CheckerSpaceUtils.ReorderMoveStep | loopy/schedule/checker/utils.py:106-117 | a present name is never before its target index, and moving it keeps the invariant |
| CheckerSpaceUtils.ReorderDone | loopy/schedule/checker/utils.py:119 | once the whole desired list is placed, the set is the input with exactly the desired names in that kind |
| CheckerSpaceUtils.InsertMissingDimsAndReorderByName | loopy/schedule/checker/utils.py:68-119 | `ValueError` exactly when the set's names are not a subset of the desired ones; for distinct names the result has exactly the desired names in order, and the parameters and other kinds are kept |
| CheckerSpaceUtils.NameDimsFrom | loopy/schedule/checker/utils.py:42-43 | names consecutive dimensions from `start`; the others are unchanged |
| CheckerSpaceUtils.AddDimsToIslSet | loopy/schedule/checker/utils.py:38-44 | succeeds exactly for an in-range start and a non-empty name list; an empty list is the `IndexError` of `names[0]`, a bad start an `IslError`; the names are inserted at the start |
| CheckerSpaceUtils.OverwriteNames | loopy/schedule/checker/utils.py:338-340 | setting the first names fails exactly when more names are given than dimensions exist; the rest keep their names |
| CheckerSpaceUtils.DefaultNames | loopy/schedule/checker/utils.py:341-343 | every dimension of the kind is named prefix plus its index |
| CheckerSpaceUtils.RenameKind | loopy/schedule/checker/utils.py:338-355 | renames one kind as `RenamedKind` prescribes: the given names when the list is non-empty, the indexed defaults otherwise |
| CheckerSpaceUtils.SetAllIslSpaceNames | loopy/schedule/checker/utils.py:327-356 | succeeds exactly when each kind's renaming does; the parameters get `p`, the inputs `i` and the outputs `o` defaults |
| CheckerSpaceUtils.RenamedBlank | loopy/schedule/checker/utils.py:359-366 | naming a freshly allocated space with as many names as dimensions yields exactly those names |
| CheckerSpaceUtils.GetIslSpace | loopy/schedule/checker/utils.py:359-366 | the space has exactly the given parameter, input and output names |
| CheckerSpaceUtils.AppendMarkerToStrings | loopy/schedule/checker/utils.py:210-214 | `ValueError` exactly when the argument is not a list; otherwise each string is followed by the marker, in the same order |
| CheckerSpaceUtils.AppendMarkerPreservesDistinct | loopy/schedule/checker/utils.py:210-214 | appending a common marker keeps distinct names distinct and introduces no duplicates |
| CheckerSpaceUtils.AppendMarkerToIslMapVarNames | loopy/schedule/checker/utils.py:155-173 | every name of the kind gets the marker appended; the other kinds are unchanged |
| CheckerSpaceUtils.CreateNewIslSetWithPrimes | loopy/schedule/checker/utils.py:135-152 | every set dimension gets the marker appended; the parameters are unchanged |
| CheckerSpaceUtils.ListVarNamesInIslSets | loopy/schedule/checker/utils.py:228-236 | strictly sorted, and it holds exactly the names of that kind found in any of the sets |
| CheckerKernelUtils.GetConcurrentInames | loopy/schedule/checker/utils.py:369-381 | partitions all inames into the concurrently tagged ones and the rest |
| CheckerKernelUtils.GetAllNonconcurrentInsnInameSubsets | loopy/schedule/checker/utils.py:394-422 | exactly the instructions' inames intersected with the non-concurrent ones, without the empty set when asked |
| CheckerKernelUtils.GetLinearizationItemIdsWithinInames | loopy/schedule/checker/utils.py:425-430 | exactly the ids of the instructions nested within all the given inames |
| CheckerKernelUtils.GetEnterLoopInames | loopy/schedule/checker/utils.py:552-558 | exactly the inames of the `EnterLoop` items |
| CheckerKernelUtils.CreateGraphFromPairs | loopy/schedule/checker/utils.py:507-515 | the keys are exactly the `before` ids, and each maps to exactly the ids paired after it |
| CheckerOrderings.ExtendPath | loopy/schedule/checker/utils.py:458-468 | appending an allowed, unvisited item keeps a valid path and strictly shrinks the unvisited items (the recursion's measure) |
| CheckerOrderings.GenerateOrderingsStartingWithPrefix | loopy/schedule/checker/utils.py:435-471 | fails only with a `KeyError`, and only when some allowed path through the prefix ends at an item with no graph entry; without `return_first_found` it fails whenever such a path exists; on success it only adds orderings of the required length, and without `return_first_found` it adds every one that extends the prefix; with it, starting empty, it returns exactly one ordering when one extends the prefix and none otherwise |
| CheckerOrderings.ExtendWithEach | loopy/schedule/checker/utils.py:459-471 | the same failure and success conditions, including "one found when one exists" under `return_first_found`, for the paths that strictly extend the prefix through the items tried next |
| CheckerOrderings.NextItemsSound | loopy/schedule/checker/utils.py:439-444 | every item tried next may extend the path, and every allowed longer path continues with one of them |
| CheckerOrderings.StuckLeaveThrough | loopy/schedule/checker/utils.py:439-444 | every path that would hit a missing key continues with one of the items tried next |
| CheckerOrderings.NoStuckThrough | loopy/schedule/checker/utils.py:459-469 | when the search after one item succeeded, no path that hits a missing key continues with that item |
| CheckerOrderings.GetOrderingsOfLengthN | loopy/schedule/checker/utils.py:474-504 | a `KeyError` only when some allowed path ends at an item that is not a key, and (without `return_first_found`) exactly then; never on a graph whose successors are all keys; every ordering returned is a valid path of the required length; without `return_first_found` every such path is returned; with it, exactly one when any exists |
| CheckerOrderings.ClosedNeverStuck | loopy/schedule/checker/utils.py:442 | when every successor is a key, no allowed path ends outside the keys |
| CheckerOrderings.SinkRaisesKeyError | loopy/schedule/checker/utils.py:442-448 | for the graph of the pair `("a", "b")`, the search for orderings of length 2 raises `KeyError`, while reading a missing key as no successors returns `["a", "b"]` |
| CheckerOrderings.GetOrderingsSinksAsLeaves | loopy/schedule/checker/utils.py:474-504 | with a missing key read as no successors the search never fails: it returns only valid paths of the required length, all of them without `return_first_found`, exactly one when any exists with it |
| Schedule.StatementEq | loopy/schedule/checker/schedule.py:54-59 | equal exactly when id, integer id and inames all agree |
| Schedule.StatementStr | loopy/schedule/checker/schedule.py:70-81 | begins with the id and ends with the iname text (` {a,b}` for a non-empty list, nothing otherwise); it is the bare id exactly when there is no integer id and no inames; with an integer id a `:` follows the id, and without one the iname text does |
| Schedule.StatementStrIntId | loopy/schedule/checker/schedule.py:70-81 | the digits between the `:` and the iname text read back as the integer id |
| Schedule.StatementStrInames | loopy/schedule/checker/schedule.py:74-76 | for comma-free inames, splitting the text inside the braces at its commas gives back the inames |
| Schedule.SplitJoin | loopy/schedule/checker/schedule.py:75 | splitting at the commas undoes the `",".join` of comma-free pieces |
| Schedule.InitState | loopy/schedule/checker/schedule.py:188-190 | the initial point `[0]` with one tier |
| Schedule.IncLast | loopy/schedule/checker/schedule.py:271-273 | only the last coordinate changes, by one |
| Schedule.CloseBlock | loopy/schedule/checker/schedule.py:202-204 | the last coordinate moves on exactly when the tier has a statement, and the tier's flag is cleared |
| Schedule.Record | loopy/schedule/checker/schedule.py:237-278 | recording an item keeps the walk state well formed |
| Schedule.Step | loopy/schedule/checker/schedule.py:191-283 | ignored loops, id-less barriers and other statements leave the state as it was; `EnterLoop` adds an iname and a 0; only `LeaveLoop` at the outer tier fails, with an `IndexError` |
| Schedule.Run | loopy/schedule/checker/schedule.py:191-283 | the walk keeps the state well formed; its only failure is an `IndexError` |
| Schedule.PadLexPtWithZeros | loopy/schedule/checker/schedule.py:302-306 | keeps the statement and the point, and appends zeros up to the length |
| Schedule.LexSchedule.constructor | loopy/schedule/checker/schedule.py:147-178 | no statement instance is recorded yet |
| Schedule.LexSchedule.WalkItem | loopy/schedule/checker/schedule.py:191-280 | the loop body does what `Step` specifies to the point, the tier flags, the next id and the recorded instances |
| Schedule.LexSchedule.Walk | loopy/schedule/checker/schedule.py:184-283 | the recorded instances are those `Run` computes from the initial state, and it fails exactly when `Run` does |
| Schedule.LexSchedule.MaxLexDims | loopy/schedule/checker/schedule.py:289-292 | the larger of the two points' lengths |
| Schedule.LexSchedule.PadLexPtsWithZeros | loopy/schedule/checker/schedule.py:294-313 | both instances are padded to the maximum length, which they then share |
| Schedule.LexSchedule.GetLexVarNames | loopy/schedule/checker/schedule.py:408-410 | `l0` to `l<n-1>` for the maximum length `n`, all distinct |
| Schedule.LexSchedule.IslMapPartsForStmtInst | loopy/schedule/checker/schedule.py:361-395 | the schedule space has `statement` followed by the given or the sorted domain inames as inputs, and the lex names as outputs; the domain gains `statement` in front; the in-tuple is the integer id followed by the inames; the out-tuple is the point |
| Schedule.CreateIslMapsBindings | loopy/schedule/checker/schedule.py:351-395 | the import succeeds exactly when every name is one utils.py defines, else `ImportError` names a missing one; then the builder call raises `TypeError` exactly when a keyword is not one of its parameters |
| Schedule.CreateIslMapsCannotRun | loopy/schedule/checker/schedule.py:351-395 | as written the import raises `ImportError` for `create_symbolic_isl_map_from_tuples`; with that name corrected the call raises `TypeError` for `statement_var_name`; with both corrected every binding succeeds |
| Schedule.LexSchedule.CreateIslMaps | loopy/schedule/checker/schedule.py:315-406 | with the import and the keyword call corrected: both maps share the lex output names; each in-tuple starts with its statement's integer id, and each out-tuple is its padded point |
| Schedule.NewLexSchedule | loopy/schedule/checker/schedule.py:147-287 | construction fails exactly when `BuildSchedule` does: an `AssertionError` for a prohibited `statement` name, the walk's `IndexError`, or the `AttributeError` that `max_lex_dims` raises when a statement was never met; otherwise it holds the padded instances |
| ScheduleOrdering.InitPending | loopy/schedule/checker/schedule.py:188-190 | the initial state satisfies the walk's ordering invariant |
| ScheduleOrdering.EnterKeepsAhead | loopy/schedule/checker/schedule.py:202-213 | a recorded point stays lexicographically behind the next point when a loop is entered |
| ScheduleOrdering.LeaveKeepsAhead | loopy/schedule/checker/schedule.py:221-232 | the same when a loop is left |
| ScheduleOrdering.RecordKeepsAhead | loopy/schedule/checker/schedule.py:271-278 | the same when a statement is recorded |
| ScheduleOrdering.RecordFreshAhead | loopy/schedule/checker/schedule.py:271-278 | the point just recorded is behind the next point |
| ScheduleOrdering.StepKeepsPending | loopy/schedule/checker/schedule.py:191-283 | every successful step keeps the ordering invariant |
| ScheduleOrdering.EnterKeepsPending | loopy/schedule/checker/schedule.py:192-213 | entering a loop keeps the invariant |
| ScheduleOrdering.LeaveKeepsPending | loopy/schedule/checker/schedule.py:214-232 | leaving a loop keeps the invariant |
| ScheduleOrdering.RecordKeepsPending | loopy/schedule/checker/schedule.py:233-278 | recording a statement keeps the invariant, and the second statement recorded lies after the first |
| ScheduleOrdering.RunKeepsPending | loopy/schedule/checker/schedule.py:191-283 | a successful walk ends with both statements recorded and ordered by their integer ids |
| ScheduleOrdering.PadKeepsLexLess | loopy/schedule/checker/schedule.py:302-313 | padding with zeros keeps lexicographic order |
| ScheduleOrdering.BuildScheduleOrdersPair | loopy/schedule/checker/schedule.py:147-313 | the two padded points have one length; the same statement gets one instance; otherwise the statement recorded first has the smaller point and the other has the next integer id |
| ScheduleOrdering.Matches | loopy/schedule/checker/schedule.py:248-266 | counts the linearization items that name either statement |
| ScheduleOrdering.RunSidBound | loopy/schedule/checker/schedule.py:271-274 | the integer ids grow at most once per matching item |
| ScheduleOrdering.BuildScheduleIdsZeroOne | loopy/schedule/checker/schedule.py:248-274 | with two distinct statements each appearing once, their integer ids are 0 and 1, and the one with 0 is lexicographically earlier |
| Checker.EnsureDimNamesMatchAndAlign | loopy/schedule/checker/utils.py:122-132 | `ValueError` exactly when some kind's name sets differ; otherwise the map has the target's space |
| Checker.NamesMatchEveryKind | loopy/schedule/checker/utils.py:125-128 | checking input, output and parameter names covers every kind |
| Checker.ConcurrentLoopsToIgnore | loopy/schedule/checker/__init__.py:121-127 | exactly the concurrently tagged inames that some `EnterLoop` enters |
| Checker.GetScheduleForStatementPair | loopy/schedule/checker/__init__.py:26-146 | the schedule of the pair with those loops ignored, failing exactly as the walk does |
| Checker.CheckAllMeaning | loopy/schedule/checker/__init__.py:220-303 | the check succeeds exactly when every dependency's check does, and it yields true exactly when each yields true |
| Checker.CheckLinearizationValidity | loopy/schedule/checker/__init__.py:197-303 | the loop's outcome is `CheckAll`: the first exception propagates, and a failed subset test clears the verdict without stopping the loop |
| Decimal.NatToString | loopy/schedule/checker/schedule.py:409 | `str(n)` has only digits, and a leading `0` only for zero |
| Decimal.IntToString | loopy/schedule/checker/schedule.py:409 | `str(n)` starts with `-` exactly for a negative `n` |
| Decimal.ParseNatToString | loopy/schedule/checker/schedule.py:409 | the digits read back as the number |
| Decimal.IntToStringInjective | loopy/schedule/checker/schedule.py:71-72 | different integers print differently |
| Decimal.IndexedNames | loopy/schedule/checker/utils.py:341-355 | the name at position `i` is the prefix followed by `str(i)` |
| Decimal.IndexedNamesDistinct | loopy/schedule/checker/schedule.py:408-410 | those names are pairwise distinct |
| StringOrder.StrLtTransitive | loopy/schedule/checker/utils.py:236 | Python's string order is transitive |
| StringOrder.StrLtTotal | loopy/schedule/checker/utils.py:236 | and total on distinct strings |
| StringOrder.InsertSorted | loopy/schedule/checker/utils.py:236 | insertion keeps a sorted list sorted and adds exactly the element |
| StringOrder.SortedDistinct | loopy/schedule/checker/utils.py:236 | `sorted(set(xs))` is strictly sorted and holds exactly the elements of `xs` |
| StringOrder.StrictlySortedUnique | loopy/schedule/checker/utils.py:236 | two strictly sorted lists with the same elements are equal, so the order is determined |
| CIntHelpers.CDiv | loopy/target/c/__init__.py:147 | C99 division: the magnitude of the quotient is `|a|` divided by `|b|`, rounded down, and it is negative exactly when the signs differ |
| CIntHelpers.CMod | loopy/target/c/__init__.py:169 | C99 remainder: `a == b*(a/b) + a%b`, smaller than `|b|`, with the sign of `a` |
| CIntHelpers.FloorDivIsFloor | loopy/target/c/__init__.py:141-151 | the reference floor quotient satisfies the floor bounds |
| CIntHelpers.FloorQuotientUnique | loopy/target/c/__init__.py:141-151 | at most one integer satisfies them |
| CIntHelpers.LoopyFloorDiv | loopy/target/c/__init__.py:141-151 | `loopy_floor_div` equals floor division for every sign combination |
| CIntHelpers.LoopyFloorDivIsFloor | loopy/target/c/__init__.py:145-147 | shifting `a` by `b + (b<0) - (b>=0)` for mixed signs makes truncation round down |
| CIntHelpers.LoopyFloorDivPosB | loopy/target/c/__init__.py:153-163 | `loopy_floor_div_pos_b` equals floor division: `b*q <= a < b*q + b` |
| CIntHelpers.LoopyFloorDivPosBIsFloor | loopy/target/c/__init__.py:157-159 | shifting a negative `a` by `b-1` makes truncation round down |
| CIntHelpers.LoopyMod | loopy/target/c/__init__.py:165-178 | `loopy_mod` equals floor modulo: the sign of `b`, magnitude below `|b|` |
| CIntHelpers.LoopyModIsFloorMod | loopy/target/c/__init__.py:169-174 | the two corrections of C's remainder give the floor remainder |
| CIntHelpers.LoopyModPosB | loopy/target/c/__init__.py:180-191 | `loopy_mod_pos_b` equals floor modulo and lies in `[0, b)` |
| CIntHelpers.LoopyDivModSplit | loopy/target/c/__init__.py:141-191 | `b * loopy_floor_div(a, b) + loopy_mod(a, b) == a` |
| CIntHelpers.PowSquare | loopy/target/c/__init__.py:230-237 | `(x*x)^m == x^(2m)`, the step the squaring loop relies on |
| CIntHelpers.IntPow | loopy/target/c/__init__.py:222-241 | the generated `int_pow` computes `x` to the power `n` for `n >= 0` |
| CPreambles.HelperSectionFraming | loopy/target/c/__init__.py:199-201 | every emitted helper is wrapped between the type macro `03_def_integer_types` and its `05_undef_integer_types` |
| CPreambles.HelperSectionSelects | loopy/target/c/__init__.py:194-201 | a helper is emitted, tagged `04_<name>`, exactly when some sized variant `<name>_int8` to `<name>_int64` was seen |
| CPreambles.IntPowSectionSelects | loopy/target/c/__init__.py:203-222 | one `07_<c_name>` preamble per `int_pow` seen, in order, and nothing else |
| CPreambles.IsHelperUsed | loopy/target/c/__init__.py:197-198 | the `any(...)` over the four integer type names |
| CPreambles.EmitHelperPreambles | loopy/target/c/__init__.py:196-201 | yields exactly the specified helper section |
| CPreambles.EmitIntPowPreambles | loopy/target/c/__init__.py:203-241 | yields exactly the specified `int_pow` section |
| CPreambles.PreambleGenerator | loopy/target/c/__init__.py:194-241 | the helpers in their fixed order, then the `int_pow` preambles |
| LinearizedArray.Size | loopy/target/c/__init__.py:298-304 | the size is known exactly when every axis length is |
| LinearizedArray.CollectStrides | loopy/target/c/__init__.py:306-325 | succeeds exactly when every tag is a fixed stride with a known value, and returns those strides in order |
| LinearizedArray.LayoutOf | loopy/target/c/__init__.py:297-327 | succeeds exactly for a constant size, only good tags and offset 0; the errors come in the source's order |
| LinearizedArray.FirstBadTag | loopy/target/c/__init__.py:311-325 | the first unsupported tag, whose error the loop raises |
| LinearizedArray.UnravelInBounds | loopy/target/c/__init__.py:329 | every multi-index `np.ndindex` produces is in bounds |
| LinearizedArray.ContiguousOffset | loopy/target/c/__init__.py:329-330 | with C-contiguous strides the offset of the `j`-th multi-index is `j` |
| LinearizedArray.Cell | loopy/target/c/__init__.py:331 | NumPy indexing: a position in `[-size, size)` hits a cell, a negative one counted from the end |
| LinearizedArray.Written | loopy/target/c/__init__.py:329-331 | a successful prefix of the stores keeps the buffer's length |
| LinearizedArray.WrittenFailureSticks | loopy/target/c/__init__.py:329-331 | the first out-of-bounds store's `IndexError` is the outcome |
| LinearizedArray.WrittenCells | loopy/target/c/__init__.py:329-333 | with all positions in bounds and distinct cells, each element lands in its own cell and the other cells stay zero |
| LinearizedArray.ContiguousLinearize | loopy/target/c/__init__.py:297-333 | with C-contiguous strides and offset 0 the literal is the value flattened |
| LinearizedArray.CheckLayout | loopy/target/c/__init__.py:298-327 | the checks before the stores, as `LayoutOf` specifies |
| LinearizedArray.StoreValues | loopy/target/c/__init__.py:329-331 | the store loop fills the buffer as `Written` specifies, or fails with its error |
| LinearizedArray.GenerateLinearizedArray | loopy/target/c/__init__.py:297-333 | returns a fresh buffer holding exactly `Linearize`'s result, or its error |
| CodegenResult.FirstWith | loopy/codegen/result.py:36-40 | the code of the first preamble with a tag, present exactly when the tag occurs |
| CodegenResult.InsertByTagPermutes | loopy/codegen/result.py:35 | the sort's insertion step only adds the inserted element |
| CodegenResult.InsertByTagFirst | loopy/codegen/result.py:35 | and it keeps, for every tag, which preamble comes first (stability) |
| CodegenResult.InsertByTagSorted | loopy/codegen/result.py:35 | and it keeps the list sorted by tag |
| CodegenResult.StableSortProps | loopy/codegen/result.py:35 | `sorted(..., key=tag)` is sorted, a permutation, and keeps the first preamble of every tag |
| CodegenResult.TagsInOrder | loopy/codegen/result.py:35-40 | the distinct tags, strictly sorted |
| CodegenResult.DedupSortedByTag | loopy/codegen/result.py:32-40 | the skip-seen loop keeps one code per tag: the first of the sorted list |
| CodegenResult.SameTags | loopy/codegen/result.py:35 | sorting keeps the set of tags |
| CodegenResult.ProcessPreambles | loopy/codegen/result.py:31-45 | one string per distinct tag, in tag order: the first preamble with that tag, dedented, plus a newline |
| CodegenResult.MergedFirstWith | loopy/codegen/result.py:115-120 | in the merged list a host preamble wins over a device preamble with the same tag |
| CodegenResult.AllCodePreambles | loopy/codegen/result.py:115-120 | one string per tag of host or device, from the host preamble when there is one |
| CodegenResult.Copy | loopy/codegen/result.py:176-190 | a field passed as `None` keeps its old value, any other replaces it |
| CodegenResult.CopyLaws | loopy/codegen/result.py:176-190 | copying with nothing is the identity, and two copies compose field by field |
| CodegenResult.CopyCannotClearVectorization | loopy/codegen/result.py:184-185 | once the vectorization info is set, no `copy` removes it |
| CodegenResult.CopyWith | loopy/codegen/result.py:176-190 | the corrected copy: keep or set each field, and setting `None` clears it |
| CodegenResult.CopyWithAgrees | loopy/codegen/result.py:176-190 | it agrees with `copy` whenever the argument is not `None` or `None` means keep |
| CodegenResult.SequentialLoopContextAsWritten | loopy/codegen/result.py:413-420 | the sequential-loop context, as written, keeps the enclosing vectorization info |
| CodegenResult.SequentialLoopKeepsVectorization | loopy/codegen/result.py:414 | a concrete context whose vectorization info the sequential loop does not clear |
| CodegenResult.SequentialLoopContext | loopy/codegen/result.py:413-420 | the corrected context: no vectorization info; a single-trip loop binds its iname to the bound |
| CodegenResult.VectorLoopContext | loopy/codegen/result.py:401-404 | a vectorized loop sets the info to its iname and its trip count |

## Left out

- isl's relation algebra is not modelled. This covers `create_symbolic_map_from_tuples`, `get_lex_order_map_for_sched_space`, `get_statement_ordering_map`, `create_dependency_constraint` and the subset test. A map is its space plus an opaque handle; the ordering and the subset test are parameters of the checker.
- The checker's `__init__.py` builds a `PairwiseScheduleBuilder` and calls `build_maps`, but `schedule.py` defines `LexSchedule` with `create_isl_maps`. The model connects the checker to `LexSchedule`.
- `preprocess_kernel`, the kernel object and the warning issued for ignored loops are not modelled. The checker takes the inames, the concurrent tags, the linearization and the dependencies as values.
- The diagnostic `print`s of the checker, and the `__str__` of a schedule and of a statement instance, are not modelled. `LexScheduleStatement.__str__` is.
- `remove_common_indentation` lives in `loopy/tools.py`, which is not part of this model. It is the parameter `dedent`.
- Preamble code is symbolic: a constructor per C text, not the text itself.
- `IntPow` covers only `n >= 0`. The signed-exponent branch uses `1.0/x`, which is floating point.
- The C integer widths are not modelled. `CDiv`, `CMod`, the helpers and `IntPow` are exact on unbounded integers, so overflow and the most negative value divided by -1 are not covered.
- `LinearizedArray.Size` takes the shape as optional naturals. pymbolic's simplification of a symbolic product (a zero factor) is not modelled, and neither is NumPy's dtype cast when storing.
- `LinearizedArray.Cell` covers index ranges only; `np.ndindex` order is row-major `Unravel`.
- Python set iteration order is not modelled. Where a loop runs over a set (`get_orderings_of_length_n`, the ordering search), the contracts hold for any order.
- `CheckerOrderings.GenerateOrderingsStartingWithPrefix`: with `return_first_found`, the contract states that exactly one ordering is found when starting empty and one exists, not which one.
- Schedule.LexSchedule.CreateIslMaps: models `create_isl_maps` with its import read as `create_symbolic_map_from_tuples` and without the `statement_var_name` keyword. As written it raises `ImportError` on every call (see "## Findings").
- `get_islvars_from_space`, `make_islvars_with_marker`, `_get_union`, `create_explicit_map_from_tuples` and `prettier_map_string` are not modelled. They build isl expressions.
- `statement_pair_dep_sets_from_legacy_knl` is not modelled.
- CheckerSpaceUtils.AppendMarkerToIslMapVarNames: every dimension is assumed to be named. islpy returns `None` for an unnamed one, and `None + marker` (loopy/schedule/checker/utils.py:171-172) raises `TypeError`; the model appends to `""` instead.
- CheckerSpaceUtils.CreateNewIslSetWithPrimes: every dimension is assumed to be named. An unnamed one makes `None + marker` (loopy/schedule/checker/utils.py:150-151) raise `TypeError`; the model appends to `""` instead.
- CheckerSpaceUtils.ListVarNamesInIslSets: every dimension is assumed to be named. An unnamed one puts `None` beside strings, and `sorted` (loopy/schedule/checker/utils.py:236) raises `TypeError`; the model sorts `""` instead.
- LinearizedArray.StoreValues: the text of the `IndexError` is the model's own, not NumPy's message.
- `LexScheduleStatement.update_persistent_hash` is not modelled.

## Findings

| source | as written | input that shows it | evidently intended | confidence | as-written member | corrected member |
|---|---|---|---|---|---|---|
| loopy/schedule/checker/utils.py:442 | `allowed_after_dict[start_prefix[-1]]` is looked up before the length check, and `create_graph_from_pairs` (line 509) makes no entry for an item that has no successor, so the search raises `KeyError` as soon as a path reaches such an item | `get_orderings_of_length_n(create_graph_from_pairs([("a", "b")]), 2)` | an item with no entry has nothing after it, as the documentation says of an empty entry | medium, not executed | CheckerOrderings.SinkRaisesKeyError | CheckerOrderings.GetOrderingsSinksAsLeaves |
| loopy/schedule/checker/schedule.py:351-356 | the import names `create_symbolic_isl_map_from_tuples`, but utils.py defines `create_symbolic_map_from_tuples` (utils.py:239), and the call at lines 391-395 passes `statement_var_name=`, which that function does not take (utils.py:239-242) | any call of `LexSchedule.create_isl_maps` | import the map builder by its defined name and call it with its own two parameters | high, not executed | Schedule.CreateIslMapsCannotRun | Schedule.LexSchedule.CreateIslMaps |
| loopy/codegen/result.py:414 | `context.copy(vectorization_info=None)`, but `copy` treats `None` as "keep the current value" (lines 184-185), so the sequential loop keeps the enclosing vectorization info | a context with `VectorizationInfo("i_inner", 4)` and a sequential loop `j` from 0 to 9 | code inside a sequential loop is generated without vectorization info | medium, not executed | CodegenResult.SequentialLoopKeepsVectorization | CodegenResult.SequentialLoopContext |
