/** The orchestration of the linearization checker
    (loopy/schedule/checker/__init__.py and the alignment helper of
    loopy/schedule/checker/utils.py). The isl relations themselves are not
    modelled: a map is its space plus an opaque handle on the relation, the
    statement instance ordering of a pair of scheduled statements is a
    parameter, and so is isl's subset test. */
module Checker {
  import opened Wrappers
  import opened StringOrder
  import opened IslSpace
  import opened Linearization
  import opened Schedule
  import CheckerSpaceUtils
  import CheckerKernelUtils

  /** An isl map: its space and an opaque handle on the relation isl holds. */
  datatype IslMap = IslMap(space: Space, relation: nat)

  /** A dependency between two statements and the map of instance pairs it
      requires to be ordered (`create_dependency_constraint`'s result). */
  datatype StatementPairDep = StatementPairDep(beforeId: string, afterId: string, constraint: IslMap)

  /** `ensure_dim_names_match_and_align`: the input, output and parameter
      names must match the target's as sets (checked in that order, raising
      `ValueError`); the aligned map then has exactly the target's space. */
  function EnsureDimNamesMatchAndAlign(obj: IslMap, tgt: IslMap): (r: Result<IslMap>)
    ensures r.Failure? <==> exists dt :: Elems(Names(obj.space, dt)) != Elems(Names(tgt.space, dt))
    ensures r.Failure? ==> r.error.ValueError?
    ensures r.Success? ==> r.value.space == tgt.space && r.value.relation == obj.relation
  {
    var inCheck := CheckerSpaceUtils.MapNamesMatchCheck(obj.space, Names(tgt.space, In), In, true, true);
    var outCheck := CheckerSpaceUtils.MapNamesMatchCheck(obj.space, Names(tgt.space, Out), Out, true, true);
    var paramCheck := CheckerSpaceUtils.MapNamesMatchCheck(obj.space, Names(tgt.space, Param), Param, true, true);
    if inCheck.Failure? then Failure(inCheck.error)
    else if outCheck.Failure? then Failure(outCheck.error)
    else if paramCheck.Failure? then Failure(paramCheck.error)
    else
      NamesMatchEveryKind(obj.space, tgt.space);
      Success(IslMap(tgt.space, obj.relation))
  }

  /** Three dimension kinds cover them all. */
  lemma NamesMatchEveryKind(a: Space, b: Space)
    requires Elems(Names(a, In)) == Elems(Names(b, In))
    requires Elems(Names(a, Out)) == Elems(Names(b, Out))
    requires Elems(Names(a, Param)) == Elems(Names(b, Param))
    ensures forall dt :: Elems(Names(a, dt)) == Elems(Names(b, dt))
  {
    forall dt ensures Elems(Names(a, dt)) == Elems(Names(b, dt)) {
      match dt
      case In =>
      case Out =>
      case Param =>
    }
  }

  /** The loops the schedule of a pair ignores: inames with a concurrent tag
      that the linearization enters as loops. */
  ghost function LoopsToIgnore(allInames: set<string>, concurrentTagged: set<string>, items: seq<LinItem>)
    : set<string>
  {
    set n | n in allInames && n in concurrentTagged && EnterLoop(n) in items
  }

  /** The ignored-loop computation of `get_schedule_for_statement_pair`:
      the concurrent inames intersected with the `EnterLoop` inames. */
  method ConcurrentLoopsToIgnore(allInames: set<string>, concurrentTagged: set<string>, items: seq<LinItem>)
    returns (r: set<string>)
    ensures forall n :: n in r <==> n in allInames && n in concurrentTagged && EnterLoop(n) in items
    ensures r == LoopsToIgnore(allInames, concurrentTagged, items)
  {
    var conc, _ := CheckerKernelUtils.GetConcurrentInames(allInames, concurrentTagged);
    var entered := CheckerKernelUtils.GetEnterLoopInames(items);
    r := conc * entered;
  }

  /** `get_schedule_for_statement_pair`: the schedule of the pair with the
      concurrent entered loops ignored and no prohibited names. */
  method GetScheduleForStatementPair(allInames: set<string>, concurrentTagged: set<string>, items: seq<LinItem>,
                                     beforeId: string, afterId: string)
    returns (r: Result<LexSchedule>)
    ensures r.Failure? <==>
              BuildSchedule(items, beforeId, afterId, [], LoopsToIgnore(allInames, concurrentTagged, items)).Failure?
    ensures r.Failure? ==>
              r.error == BuildSchedule(items, beforeId, afterId, [], LoopsToIgnore(allInames, concurrentTagged, items)).error
    ensures r.Success? ==>
              && fresh(r.value)
              && r.value.stmtInstanceBefore == Some(BuildSchedule(items, beforeId, afterId, [],
                                                    LoopsToIgnore(allInames, concurrentTagged, items)).value.0)
              && r.value.stmtInstanceAfter == Some(BuildSchedule(items, beforeId, afterId, [],
                                                   LoopsToIgnore(allInames, concurrentTagged, items)).value.1)
  {
    var ignore := ConcurrentLoopsToIgnore(allInames, concurrentTagged, items);
    r := NewLexSchedule(items, beforeId, afterId, [], ignore);
  }

  /** The outcome of checking one dependency: its pair schedule, the
      statement instance ordering `sioOf` derives from it, the constraint
      aligned to that ordering's space, and the subset test. */
  ghost function CheckDependency(dep: StatementPairDep, allInames: set<string>, concurrentTagged: set<string>,
                                 items: seq<LinItem>, sioOf: (StatementInstance, StatementInstance) -> IslMap,
                                 isSubset: (IslMap, IslMap) -> bool): Result<bool>
  {
    match BuildSchedule(items, dep.beforeId, dep.afterId, [], LoopsToIgnore(allInames, concurrentTagged, items))
    case Failure(e) => Failure(e)
    case Success(pair) =>
      var sio := sioOf(pair.0, pair.1);
      match EnsureDimNamesMatchAndAlign(dep.constraint, sio)
      case Failure(e) => Failure(e)
      case Success(aligned) => Success(isSubset(aligned, sio))
  }

  /** Checking the dependencies in order: the first exception propagates,
      otherwise the result is the conjunction of all the subset tests. */
  ghost function CheckAll(deps: seq<StatementPairDep>, allInames: set<string>, concurrentTagged: set<string>,
                          items: seq<LinItem>, sioOf: (StatementInstance, StatementInstance) -> IslMap,
                          isSubset: (IslMap, IslMap) -> bool): Result<bool>
  {
    if |deps| == 0 then Success(true)
    else
      match CheckDependency(deps[0], allInames, concurrentTagged, items, sioOf, isSubset)
      case Failure(e) => Failure(e)
      case Success(ok) =>
        match CheckAll(deps[1..], allInames, concurrentTagged, items, sioOf, isSubset)
        case Failure(e) => Failure(e)
        case Success(rest) => Success(ok && rest)
  }

  /** The linearization is valid exactly when every dependency's check
      succeeds and passes; a failing subset test does not stop the checks of
      the later dependencies, whose exceptions still propagate. */
  lemma {:induction false} CheckAllMeaning(deps: seq<StatementPairDep>, allInames: set<string>,
                                           concurrentTagged: set<string>, items: seq<LinItem>,
                                           sioOf: (StatementInstance, StatementInstance) -> IslMap,
                                           isSubset: (IslMap, IslMap) -> bool)
    ensures CheckAll(deps, allInames, concurrentTagged, items, sioOf, isSubset).Success? <==>
              forall k :: 0 <= k < |deps| ==>
                CheckDependency(deps[k], allInames, concurrentTagged, items, sioOf, isSubset).Success?
    ensures CheckAll(deps, allInames, concurrentTagged, items, sioOf, isSubset) == Success(true) <==>
              forall k :: 0 <= k < |deps| ==>
                CheckDependency(deps[k], allInames, concurrentTagged, items, sioOf, isSubset) == Success(true)
  {
    if |deps| > 0 {
      CheckAllMeaning(deps[1..], allInames, concurrentTagged, items, sioOf, isSubset);
      assert forall k :: 1 <= k < |deps| ==> deps[k] == deps[1..][k - 1];
    }
  }

  /** `check_linearization_validity`: every dependency is checked; a failed
      subset test clears the flag without stopping the loop. */
  method CheckLinearizationValidity(deps: seq<StatementPairDep>, allInames: set<string>,
                                    concurrentTagged: set<string>, items: seq<LinItem>,
                                    sioOf: (StatementInstance, StatementInstance) -> IslMap,
                                    isSubset: (IslMap, IslMap) -> bool)
    returns (r: Result<bool>)
    ensures r == CheckAll(deps, allInames, concurrentTagged, items, sioOf, isSubset)
  {
    var linearizationIsValid := true;
    for i := 0 to |deps|
      invariant CheckAll(deps, allInames, concurrentTagged, items, sioOf, isSubset) ==
                (match CheckAll(deps[i..], allInames, concurrentTagged, items, sioOf, isSubset)
                 case Failure(e) => Failure(e)
                 case Success(rest) => Success(linearizationIsValid && rest))
    {
      var dep := deps[i];
      assert deps[i..][1..] == deps[i + 1..];
      var sched := GetScheduleForStatementPair(allInames, concurrentTagged, items, dep.beforeId, dep.afterId);
      if sched.Failure? {
        return Failure(sched.error);
      }
      var sio := sioOf(sched.value.stmtInstanceBefore.value, sched.value.stmtInstanceAfter.value);
      var aligned := EnsureDimNamesMatchAndAlign(dep.constraint, sio);
      if aligned.Failure? {
        return Failure(aligned.error);
      }
      if !isSubset(aligned.value, sio) {
        linearizationIsValid := false;
      }
    }
    return Success(linearizationIsValid);
  }
}
