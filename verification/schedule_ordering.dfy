/** What the lexicographic schedule walk guarantees about the two points it
    records (loopy/schedule/checker/schedule.py): the statement recorded
    second lies strictly later in the lexicographic order, and the first
    position where the two points differ holds block counters. */
module ScheduleOrdering {
  import opened Wrappers
  import opened Linearization
  import opened Schedule

  /** `p` comes before `q` in the lexicographic order, and `k` is the first
      position where they differ: both hold counters there and `p`'s is the
      smaller. */
  predicate LexLessAt(p: seq<LexEntry>, q: seq<LexEntry>, k: nat) {
    && k < |p| && k < |q|
    && p[..k] == q[..k]
    && p[k].Int? && q[k].Int?
    && p[k].n < q[k].n
  }

  /** A recorded point `p` is behind the walk's current point at counter
      position `k`, and every enclosing tier has emitted a statement since,
      so leaving loops keeps it behind. */
  predicate AheadAt(p: seq<LexEntry>, st: WalkState, k: nat) {
    && LexLessAt(p, st.pt, k)
    && k % 2 == 0
    && forall t :: 0 <= t < k / 2 && t < |st.flags| ==> st.flags[t]
  }

  /** A recorded instance during the walk: the last statement id handed out
      and a point behind the current one. */
  ghost predicate Tracked(inst: StatementInstance, st: WalkState) {
    && st.nextSid >= 1
    && inst.stmt.intId == Some(st.nextSid - 1)
    && exists k :: AheadAt(inst.lexPt, st, k)
  }

  /** The walk before both targets are recorded. */
  ghost predicate Pending(st: WalkState, beforeId: string, afterId: string) {
    && WellFormed(st)
    && !Done(st)
    && (beforeId == afterId ==> st.before == st.after)
    && (st.before.Some? ==> st.before.value.stmt.insnId == beforeId && Tracked(st.before.value, st))
    && (st.after.Some? ==> st.after.value.stmt.insnId == afterId && Tracked(st.after.value, st))
  }

  /** `x` was recorded just before `y`: consecutive statement ids, ending at
      the last one handed out, and `x` lexicographically first. */
  ghost predicate RecordedInOrder(x: StatementInstance, y: StatementInstance, nextSid: int) {
    && x.stmt.intId == Some(nextSid - 2)
    && y.stmt.intId == Some(nextSid - 1)
    && exists k :: LexLessAt(x.lexPt, y.lexPt, k)
  }

  /** The walk once both targets are recorded. */
  ghost predicate Completed(st: WalkState, beforeId: string, afterId: string) {
    && Done(st)
    && st.before.value.stmt.insnId == beforeId
    && st.after.value.stmt.insnId == afterId
    && (beforeId == afterId ==> st.before == st.after && st.nextSid >= 1
                                && st.before.value.stmt.intId == Some(st.nextSid - 1))
    && (beforeId != afterId ==> st.nextSid >= 2 && (RecordedInOrder(st.before.value, st.after.value, st.nextSid)
                                                    || RecordedInOrder(st.after.value, st.before.value, st.nextSid)))
  }

  lemma InitPending(beforeId: string, afterId: string)
    ensures Pending(InitState(), beforeId, afterId)
  {
  }

  /** Entering a loop keeps a recorded point behind the current one. */
  lemma EnterKeepsAhead(p: seq<LexEntry>, st: WalkState, iname: string, k: nat)
    requires WellFormed(st) && AheadAt(p, st, k)
    ensures var closed := CloseBlock(st);
            AheadAt(p, closed.(pt := closed.pt + [Name(iname), Int(0)], flags := closed.flags + [false]), k)
  {
    var closed := CloseBlock(st);
    var n := closed.(pt := closed.pt + [Name(iname), Int(0)], flags := closed.flags + [false]);
    var last := |st.pt| - 1;
    assert closed.pt[..last] == st.pt[..last];
    if k < last {
      assert n.pt[..k] == closed.pt[..last][..k];
    }
    assert n.pt[..k] == st.pt[..k];
  }

  /** Leaving a loop keeps a recorded point behind the current one; when the
      point diverged in the loop being left, the divergence moves out to the
      enclosing counter, which the set flag has just advanced. */
  lemma LeaveKeepsAhead(p: seq<LexEntry>, st: WalkState, k: nat)
    requires WellFormed(st) && |st.flags| >= 2 && AheadAt(p, st, k)
    ensures var n := CloseBlock(st.(pt := st.pt[..|st.pt| - 2], flags := st.flags[..|st.flags| - 1]));
            exists k' :: AheadAt(p, n, k')
  {
    var popped := st.(pt := st.pt[..|st.pt| - 2], flags := st.flags[..|st.flags| - 1]);
    var n := CloseBlock(popped);
    var last := |popped.pt| - 1;
    assert n.pt[..last] == popped.pt[..last];
    if k <= last {
      if k < last {
        assert n.pt[..k] == popped.pt[..last][..k];
      }
      assert n.pt[..k] == st.pt[..k];
      assert AheadAt(p, n, k);
    } else {
      assert k == last + 2;
      assert popped.flags[last / 2];
      assert p[last] == p[..k][last] == st.pt[..k][last] == st.pt[last];
      assert n.pt[..last] == st.pt[..k][..last] == p[..k][..last];
      assert AheadAt(p, n, last);
    }
  }

  /** Recording a statement keeps an earlier recorded point behind the new
      current point, and puts the newly recorded point behind it too. */
  lemma RecordKeepsAhead(p: seq<LexEntry>, st: WalkState, k: nat)
    requires WellFormed(st) && AheadAt(p, st, k)
    ensures AheadAt(p, st.(pt := IncLast(st.pt), flags := seq(|st.flags|, _ => true)), k)
  {
    var last := |st.pt| - 1;
    var q := IncLast(st.pt);
    if k < last {
      assert q[..k] == q[..last][..k];
    }
  }

  lemma RecordFreshAhead(st: WalkState)
    requires WellFormed(st)
    ensures AheadAt(st.pt, st.(pt := IncLast(st.pt), flags := seq(|st.flags|, _ => true)), |st.pt| - 1)
  {
  }

  /** One step of the walk from a pending state leads to a pending or a
      completed state. */
  lemma StepKeepsPending(st: WalkState, item: LinItem, beforeId: string, afterId: string,
                         loopsToIgnore: set<string>)
    requires Pending(st, beforeId, afterId)
    requires Step(st, item, beforeId, afterId, loopsToIgnore).Success?
    ensures var n := Step(st, item, beforeId, afterId, loopsToIgnore).value;
            if Done(n) then Completed(n, beforeId, afterId) else Pending(n, beforeId, afterId)
  {
    match item {
      case EnterLoop(iname) =>
        if iname !in loopsToIgnore {
          EnterKeepsPending(st, iname, beforeId, afterId, loopsToIgnore);
        }
      case LeaveLoop(iname) =>
        if iname !in loopsToIgnore {
          LeaveKeepsPending(st, iname, beforeId, afterId, loopsToIgnore);
        }
      case RunInstruction(id) =>
        RecordKeepsPending(st, id, beforeId, afterId);
      case Barrier(id) =>
        if id.Some? {
          RecordKeepsPending(st, id.value, beforeId, afterId);
        }
    }
  }

  lemma EnterKeepsPending(st: WalkState, iname: string, beforeId: string, afterId: string,
                          loopsToIgnore: set<string>)
    requires Pending(st, beforeId, afterId) && iname !in loopsToIgnore
    ensures Pending(Step(st, EnterLoop(iname), beforeId, afterId, loopsToIgnore).value, beforeId, afterId)
  {
    var n := Step(st, EnterLoop(iname), beforeId, afterId, loopsToIgnore).value;
    var closed := CloseBlock(st);
    assert n == closed.(pt := closed.pt + [Name(iname), Int(0)], flags := closed.flags + [false]);
    if st.before.Some? {
      var k :| AheadAt(st.before.value.lexPt, st, k);
      EnterKeepsAhead(st.before.value.lexPt, st, iname, k);
    }
    if st.after.Some? {
      var k :| AheadAt(st.after.value.lexPt, st, k);
      EnterKeepsAhead(st.after.value.lexPt, st, iname, k);
    }
  }

  lemma LeaveKeepsPending(st: WalkState, iname: string, beforeId: string, afterId: string,
                          loopsToIgnore: set<string>)
    requires Pending(st, beforeId, afterId) && iname !in loopsToIgnore
    requires Step(st, LeaveLoop(iname), beforeId, afterId, loopsToIgnore).Success?
    ensures Pending(Step(st, LeaveLoop(iname), beforeId, afterId, loopsToIgnore).value, beforeId, afterId)
  {
    var n := Step(st, LeaveLoop(iname), beforeId, afterId, loopsToIgnore).value;
    assert n == CloseBlock(st.(pt := st.pt[..|st.pt| - 2], flags := st.flags[..|st.flags| - 1]));
    if st.before.Some? {
      var k :| AheadAt(st.before.value.lexPt, st, k);
      LeaveKeepsAhead(st.before.value.lexPt, st, k);
    }
    if st.after.Some? {
      var k :| AheadAt(st.after.value.lexPt, st, k);
      LeaveKeepsAhead(st.after.value.lexPt, st, k);
    }
  }

  lemma RecordKeepsPending(st: WalkState, id: string, beforeId: string, afterId: string)
    requires Pending(st, beforeId, afterId)
    ensures var n := Record(st, id, beforeId, afterId);
            if Done(n) then Completed(n, beforeId, afterId) else Pending(n, beforeId, afterId)
  {
    if id == beforeId || id == afterId {
      var n := Record(st, id, beforeId, afterId);
      var moved := st.(pt := IncLast(st.pt), flags := seq(|st.flags|, _ => true));
      assert n.pt == moved.pt && n.flags == moved.flags;
      RecordFreshAhead(st);
      var newInst := InstanceAt(st, id);
      assert Tracked(newInst, n) by {
        assert AheadAt(newInst.lexPt, n, |st.pt| - 1);
      }
      if id != beforeId && st.before.Some? {
        var k :| AheadAt(st.before.value.lexPt, st, k);
        RecordKeepsAhead(st.before.value.lexPt, st, k);
        assert LexLessAt(st.before.value.lexPt, newInst.lexPt, k);
      }
      if id != afterId && st.after.Some? {
        var k :| AheadAt(st.after.value.lexPt, st, k);
        RecordKeepsAhead(st.after.value.lexPt, st, k);
        assert LexLessAt(st.after.value.lexPt, newInst.lexPt, k);
      }
    }
  }

  /** The walk from a pending state either fails, runs out of items while
      still pending, or stops completed. */
  lemma {:induction false} RunKeepsPending(st: WalkState, items: seq<LinItem>, beforeId: string,
                                           afterId: string, loopsToIgnore: set<string>)
    requires Pending(st, beforeId, afterId)
    requires Run(st, items, beforeId, afterId, loopsToIgnore).Success?
    ensures var fin := Run(st, items, beforeId, afterId, loopsToIgnore).value;
            Done(fin) ==> Completed(fin, beforeId, afterId)
    decreases |items|
  {
    if |items| > 0 {
      StepKeepsPending(st, items[0], beforeId, afterId, loopsToIgnore);
      var next := Step(st, items[0], beforeId, afterId, loopsToIgnore).value;
      if !Done(next) {
        RunKeepsPending(next, items[1..], beforeId, afterId, loopsToIgnore);
      }
    }
  }

  /** Padding both points with zeros keeps their first difference. */
  lemma PadKeepsLexLess(x: StatementInstance, y: StatementInstance, length: int, k: nat)
    requires LexLessAt(x.lexPt, y.lexPt, k)
    ensures LexLessAt(PadLexPtWithZeros(x, length).lexPt, PadLexPtWithZeros(y, length).lexPt, k)
  {
    var px := PadLexPtWithZeros(x, length).lexPt;
    var py := PadLexPtWithZeros(y, length).lexPt;
    assert px[..k] == px[..|x.lexPt|][..k];
    assert py[..k] == py[..|y.lexPt|][..k];
  }

  /** The schedule of a dependency pair: both padded points have the same
      length; equal targets share one instance; otherwise the two statements
      get consecutive ids and the one with the smaller id has the
      lexicographically smaller point, the first difference being a block
      counter. */
  lemma BuildScheduleOrdersPair(items: seq<LinItem>, beforeId: string, afterId: string,
                                prohibitedVarNames: seq<string>, loopsToIgnore: set<string>)
    requires BuildSchedule(items, beforeId, afterId, prohibitedVarNames, loopsToIgnore).Success?
    ensures var (x, y) := BuildSchedule(items, beforeId, afterId, prohibitedVarNames, loopsToIgnore).value;
            && |x.lexPt| == |y.lexPt|
            && x.stmt.insnId == beforeId && y.stmt.insnId == afterId
            && x.stmt.intId.Some? && y.stmt.intId.Some?
            && (beforeId == afterId ==> x == y)
            && (beforeId != afterId ==>
                  || (x.stmt.intId.value + 1 == y.stmt.intId.value && exists k :: LexLessAt(x.lexPt, y.lexPt, k))
                  || (y.stmt.intId.value + 1 == x.stmt.intId.value && exists k :: LexLessAt(y.lexPt, x.lexPt, k)))
  {
    InitPending(beforeId, afterId);
    RunKeepsPending(InitState(), items, beforeId, afterId, loopsToIgnore);
    var st := Run(InitState(), items, beforeId, afterId, loopsToIgnore).value;
    var length := Max(|st.before.value.lexPt|, |st.after.value.lexPt|);
    if beforeId != afterId {
      if RecordedInOrder(st.before.value, st.after.value, st.nextSid) {
        var k :| LexLessAt(st.before.value.lexPt, st.after.value.lexPt, k);
        PadKeepsLexLess(st.before.value, st.after.value, length, k);
      } else {
        var k :| LexLessAt(st.after.value.lexPt, st.before.value.lexPt, k);
        PadKeepsLexLess(st.after.value, st.before.value, length, k);
      }
    }
  }

  /** The number of run and barrier items naming one of the targets. */
  function Matches(items: seq<LinItem>, beforeId: string, afterId: string): (r: nat)
    ensures r <= |items|
  {
    if |items| == 0 then 0
    else
      var hit := (items[0].RunInstruction? || items[0].Barrier?)
                 && (InsnIdOf(items[0]) == Some(beforeId) || InsnIdOf(items[0]) == Some(afterId));
      (if hit then 1 else 0) + Matches(items[1..], beforeId, afterId)
  }

  /** Statement ids are only handed out at target items. */
  lemma {:induction false} RunSidBound(st: WalkState, items: seq<LinItem>, beforeId: string, afterId: string,
                                       loopsToIgnore: set<string>)
    requires WellFormed(st)
    requires Run(st, items, beforeId, afterId, loopsToIgnore).Success?
    ensures Run(st, items, beforeId, afterId, loopsToIgnore).value.nextSid <= st.nextSid + Matches(items, beforeId, afterId)
    decreases |items|
  {
    if |items| > 0 {
      var next := Step(st, items[0], beforeId, afterId, loopsToIgnore).value;
      if !Done(next) {
        RunSidBound(next, items[1..], beforeId, afterId, loopsToIgnore);
      }
    }
  }

  /** When each target occurs once (two target items in all), the statements
      get ids 0 and 1, and id 0 goes to the lexicographically earlier one. */
  lemma BuildScheduleIdsZeroOne(items: seq<LinItem>, beforeId: string, afterId: string,
                                prohibitedVarNames: seq<string>, loopsToIgnore: set<string>)
    requires BuildSchedule(items, beforeId, afterId, prohibitedVarNames, loopsToIgnore).Success?
    requires beforeId != afterId && Matches(items, beforeId, afterId) <= 2
    ensures var (x, y) := BuildSchedule(items, beforeId, afterId, prohibitedVarNames, loopsToIgnore).value;
            || (x.stmt.intId == Some(0) && y.stmt.intId == Some(1) && exists k :: LexLessAt(x.lexPt, y.lexPt, k))
            || (y.stmt.intId == Some(0) && x.stmt.intId == Some(1) && exists k :: LexLessAt(y.lexPt, x.lexPt, k))
  {
    InitPending(beforeId, afterId);
    RunKeepsPending(InitState(), items, beforeId, afterId, loopsToIgnore);
    RunSidBound(InitState(), items, beforeId, afterId, loopsToIgnore);
    BuildScheduleOrdersPair(items, beforeId, afterId, prohibitedVarNames, loopsToIgnore);
  }
}
