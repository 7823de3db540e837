/** The pairwise lexicographic schedule of the linearization checker
    (loopy/schedule/checker/schedule.py): one pass over a linearization that
    gives each of two target statements a point in a lexicographic order. */
module Schedule {
  import opened Wrappers
  import opened Decimal
  import opened StringOrder
  import opened IslSpace
  import opened Linearization
  import CheckerSpaceUtils

  /** `LexSchedule.statement_var_name`. */
  const StatementVarName: string := "statement"

  /** `LexSchedule.lex_var_prefix`. */
  const LexVarPrefix: string := "l"

  /** One coordinate of a lex point: a block counter or a loop's iname. */
  datatype LexEntry = Int(n: int) | Name(s: string)

  /** `LexScheduleStatement`. */
  datatype Statement = Statement(insnId: string, intId: Option<int>, withinInames: Option<seq<string>>)

  /** `LexScheduleStatementInstance`: a statement and its lex point. */
  datatype StatementInstance = StatementInstance(stmt: Statement, lexPt: seq<LexEntry>)

  /** `LexScheduleStatement.__eq__`: field-wise comparison, which is exactly
      equality of statements. */
  function StatementEq(a: Statement, b: Statement): (r: bool)
    ensures r <==> a == b
  {
    a.insnId == b.insnId && a.intId == b.intId && a.withinInames == b.withinInames
  }

  /** `",".join(parts)`. */
  function Join(sep: string, parts: seq<string>): string {
    if |parts| == 0 then ""
    else if |parts| == 1 then parts[0]
    else parts[0] + sep + Join(sep, parts[1..])
  }

  /** `text.split(",")`: the pieces between the commas, at least one. */
  function Split(text: string): (r: seq<string>)
    ensures |r| >= 1
  {
    if |text| == 0 then [""]
    else if text[0] == ',' then [""] + Split(text[1..])
    else
      var rest := Split(text[1..]);
      [[text[0]] + rest[0]] + rest[1..]
  }

  /** Splitting a comma-free piece, a comma and more text yields the piece,
      then the pieces of the rest. */
  lemma {:induction false} SplitAfterPiece(a: string, b: string)
    requires ',' !in a
    ensures Split(a + "," + b) == [a] + Split(b)
  {
    if |a| == 0 {
      assert a + "," + b == [','] + b;
      assert (a + "," + b)[1..] == b;
    } else {
      assert (a + "," + b)[1..] == a[1..] + "," + b;
      SplitAfterPiece(a[1..], b);
      assert [a[0]] + a[1..] == a;
    }
  }

  /** A piece without a comma splits into itself. */
  lemma {:induction false} SplitPiece(a: string)
    requires ',' !in a
    ensures Split(a) == [a]
  {
    if |a| > 0 {
      SplitPiece(a[1..]);
      assert [a[0]] + a[1..] == a;
    }
  }

  /** Splitting at the commas undoes joining comma-free pieces. */
  lemma {:induction false} SplitJoin(parts: seq<string>)
    requires |parts| >= 1
    requires forall k :: 0 <= k < |parts| ==> ',' !in parts[k]
    ensures Split(Join(",", parts)) == parts
  {
    if |parts| == 1 {
      SplitPiece(parts[0]);
    } else {
      SplitAfterPiece(parts[0], Join(",", parts[1..]));
      SplitJoin(parts[1..]);
      assert [parts[0]] + parts[1..] == parts;
    }
  }

  /** The part `LexScheduleStatement.__str__` gives the inames: ` {a,b}` for
      a non-empty list, nothing otherwise. */
  function InamesText(s: Statement): (r: string)
    ensures r == "" <==> s.withinInames.None? || s.withinInames.value == []
    ensures r != "" ==> |r| >= 3 && r[..2] == " {" && r[|r| - 1] == '}'
  {
    if s.withinInames.Some? && |s.withinInames.value| > 0
    then " {" + Join(",", s.withinInames.value) + "}" else ""
  }

  /** `LexScheduleStatement.__str__`: the instruction id, then `:` and the
      integer id if there is one, then ` {inames}` if the inames are a
      non-empty list. */
  function StatementStr(s: Statement): (r: string)
    ensures |r| >= |s.insnId| + |InamesText(s)|
    ensures r[..|s.insnId|] == s.insnId
    ensures r[|r| - |InamesText(s)|..] == InamesText(s)
    ensures r == s.insnId <==> s.intId.None? && (s.withinInames.None? || s.withinInames.value == [])
    ensures s.intId.Some? ==> |r| > |s.insnId| + |InamesText(s)| && r[|s.insnId|] == ':'
    ensures s.intId.None? ==> r == s.insnId + InamesText(s)
  {
    var intPart := if s.intId.Some? then ":" + IntToString(s.intId.value) else "";
    var r := s.insnId + intPart + InamesText(s);
    assert r[..|s.insnId|] == s.insnId;
    assert r[|r| - |InamesText(s)|..] == InamesText(s);
    r
  }

  /** The integer id can be read back from the rendering of a statement: the
      digits between the `:` and the iname text. */
  lemma StatementStrIntId(s: Statement)
    requires s.intId.Some? && s.intId.value >= 0
    ensures IsDigits(StatementStr(s)[|s.insnId| + 1..|StatementStr(s)| - |InamesText(s)|])
    ensures ParseNat(StatementStr(s)[|s.insnId| + 1..|StatementStr(s)| - |InamesText(s)|]) == s.intId.value
  {
    var r := StatementStr(s);
    assert r == s.insnId + ":" + IntToString(s.intId.value) + InamesText(s);
    assert r[|s.insnId| + 1..|r| - |InamesText(s)|] == IntToString(s.intId.value);
    ParseIntToString(s.intId.value);
  }

  /** The inames can be read back from the rendering of a statement with a
      non-empty list of comma-free inames: split the text inside the braces
      at its commas. */
  lemma StatementStrInames(s: Statement)
    requires s.withinInames.Some? && s.withinInames.value != []
    requires forall k :: 0 <= k < |s.withinInames.value| ==> ',' !in s.withinInames.value[k]
    ensures Split(StatementStr(s)[|StatementStr(s)| - |InamesText(s)| + 2..|StatementStr(s)| - 1])
            == s.withinInames.value
  {
    var r := StatementStr(s);
    var t := InamesText(s);
    assert r[|r| - |t|..] == t;
    assert r[|r| - |t| + 2..|r| - 1] == t[2..|t| - 1] == Join(",", s.withinInames.value);
    SplitJoin(s.withinInames.value);
  }

  /** The state of the walk: the next lex point, one "statement emitted since
      the block began" flag per loop tier, the next statement id, and the two
      recorded instances. */
  datatype WalkState = WalkState(pt: seq<LexEntry>, flags: seq<bool>, nextSid: nat,
                                 before: Option<StatementInstance>, after: Option<StatementInstance>)

  /** A lex point alternates block counters and inames, starting and ending
      with a counter: `2 * tiers - 1` entries for `tiers` flags. */
  predicate WellFormed(st: WalkState) {
    && |st.flags| >= 1
    && |st.pt| == 2 * |st.flags| - 1
    && forall i :: 0 <= i < |st.pt| ==> (st.pt[i].Int? <==> i % 2 == 0)
  }

  /** `[0]`, `[False]`, `next_sid = 0`, nothing recorded. */
  function InitState(): (st: WalkState)
    ensures WellFormed(st)
  {
    WalkState([Int(0)], [false], 0, None, None)
  }

  /** Both instances are recorded: the walk stops. */
  predicate Done(st: WalkState) {
    st.before.Some? && st.after.Some?
  }

  /** `next_insn_lex_pt[-1] += 1`. */
  function IncLast(pt: seq<LexEntry>): (r: seq<LexEntry>)
    requires |pt| > 0 && pt[|pt| - 1].Int?
    ensures |r| == |pt| && r[..|pt| - 1] == pt[..|pt| - 1]
    ensures r[|pt| - 1] == Int(pt[|pt| - 1].n + 1)
  {
    pt[|pt| - 1 := Int(pt[|pt| - 1].n + 1)]
  }

  /** Start a new block in the innermost tier: the counter moves on only if
      the block just closed emitted a statement, and the flag is reset. */
  function CloseBlock(st: WalkState): (r: WalkState)
    requires WellFormed(st)
    ensures WellFormed(r)
    ensures r.flags == st.flags[|st.flags| - 1 := false]
    ensures r.pt == if st.flags[|st.flags| - 1] then IncLast(st.pt) else st.pt
    ensures r.nextSid == st.nextSid && r.before == st.before && r.after == st.after
  {
    if st.flags[|st.flags| - 1] then
      st.(pt := IncLast(st.pt), flags := st.flags[|st.flags| - 1 := false])
    else
      assert st.flags[|st.flags| - 1 := false] == st.flags;
      st
  }

  /** The instance recorded for statement `id` in state `st`. */
  function InstanceAt(st: WalkState, id: string): StatementInstance {
    StatementInstance(Statement(id, Some(st.nextSid), None), st.pt)
  }

  /** A run or barrier item with id `id`: if it is a target, record a copy of
      the point for it (for both if both targets are `id`), then advance the
      counter and the statement id, and mark every tier as having emitted. */
  function Record(st: WalkState, id: string, beforeId: string, afterId: string): (r: WalkState)
    requires WellFormed(st)
    ensures WellFormed(r)
  {
    if id != beforeId && id != afterId then st
    else
      WalkState(IncLast(st.pt), seq(|st.flags|, _ => true), st.nextSid + 1,
                if id == beforeId then Some(InstanceAt(st, id)) else st.before,
                if id == afterId then Some(InstanceAt(st, id)) else st.after)
  }

  /** One item of the walk in `LexSchedule.__init__`. Leaving a loop at the
      outermost tier pops the last entry of a one-entry point twice, which
      raises `IndexError`. */
  function Step(st: WalkState, item: LinItem, beforeId: string, afterId: string, loopsToIgnore: set<string>)
    : (r: Result<WalkState>)
    requires WellFormed(st)
    ensures r.Success? ==> WellFormed(r.value)
    ensures r.Failure? <==> item.LeaveLoop? && item.iname !in loopsToIgnore && |st.flags| == 1
    ensures r.Failure? ==> r.error.IndexError?
    ensures (item.EnterLoop? || item.LeaveLoop?) && item.iname in loopsToIgnore ==> r == Success(st)
    ensures item.Barrier? && item.originatingInsnId.None? ==> r == Success(st)
    ensures ((item.RunInstruction? || item.Barrier?) && InsnIdOf(item) != Some(beforeId)
             && InsnIdOf(item) != Some(afterId)) ==> r == Success(st)
    ensures item.EnterLoop? && item.iname !in loopsToIgnore ==>
              r.Success? && |r.value.flags| == |st.flags| + 1 && r.value.pt[|st.pt|..] == [Name(item.iname), Int(0)]
    ensures item.LeaveLoop? && r.Success? && item.iname !in loopsToIgnore ==>
              |r.value.flags| == |st.flags| - 1
  {
    match item
    case EnterLoop(iname) =>
      if iname in loopsToIgnore then Success(st)
      else
        var closed := CloseBlock(st);
        Success(closed.(pt := closed.pt + [Name(iname), Int(0)], flags := closed.flags + [false]))
    case LeaveLoop(iname) =>
      if iname in loopsToIgnore then Success(st)
      else if |st.flags| == 1 then Failure(IndexError("pop from empty list"))
      else Success(CloseBlock(st.(pt := st.pt[..|st.pt| - 2], flags := st.flags[..|st.flags| - 1])))
    case RunInstruction(id) => Success(Record(st, id, beforeId, afterId))
    case Barrier(id) =>
      if id.None? then Success(st) else Success(Record(st, id.value, beforeId, afterId))
  }

  /** The walk over `items` from `st`, stopping right after the item that
      completes the pair. */
  function Run(st: WalkState, items: seq<LinItem>, beforeId: string, afterId: string,
               loopsToIgnore: set<string>): (r: Result<WalkState>)
    requires WellFormed(st)
    ensures r.Success? ==> WellFormed(r.value)
    ensures r.Failure? ==> r.error.IndexError?
    decreases |items|
  {
    if |items| == 0 then Success(st)
    else
      match Step(st, items[0], beforeId, afterId, loopsToIgnore)
      case Failure(e) => Failure(e)
      case Success(next) =>
        if Done(next) then Success(next) else Run(next, items[1..], beforeId, afterId, loopsToIgnore)
  }

  /** Entering a loop that is not ignored, spelled out. */
  lemma EnterStep(st: WalkState, iname: string, beforeId: string, afterId: string, loopsToIgnore: set<string>)
    requires WellFormed(st) && iname !in loopsToIgnore
    ensures Step(st, EnterLoop(iname), beforeId, afterId, loopsToIgnore)
            == Success(WalkState((if st.flags[|st.flags| - 1] then IncLast(st.pt) else st.pt) + [Name(iname), Int(0)],
                                 st.flags[|st.flags| - 1 := false] + [false], st.nextSid, st.before, st.after))
  {
  }

  /** Leaving a loop that is not ignored below the outermost tier, spelled out. */
  lemma LeaveStep(st: WalkState, iname: string, beforeId: string, afterId: string, loopsToIgnore: set<string>)
    requires WellFormed(st) && iname !in loopsToIgnore && |st.flags| > 1
    ensures var pt := st.pt[..|st.pt| - 2];
            var flags := st.flags[..|st.flags| - 1];
            Step(st, LeaveLoop(iname), beforeId, afterId, loopsToIgnore)
            == Success(WalkState(if flags[|flags| - 1] then IncLast(pt) else pt, flags[|flags| - 1 := false],
                                 st.nextSid, st.before, st.after))
  {
  }

  /** One step of the walk, unfolded. */
  lemma RunUnfold(st: WalkState, items: seq<LinItem>, beforeId: string, afterId: string, loopsToIgnore: set<string>)
    requires WellFormed(st) && |items| > 0
    ensures Step(st, items[0], beforeId, afterId, loopsToIgnore).Failure? ==>
              Run(st, items, beforeId, afterId, loopsToIgnore)
              == Failure(Step(st, items[0], beforeId, afterId, loopsToIgnore).error)
    ensures Step(st, items[0], beforeId, afterId, loopsToIgnore).Success? ==>
              Run(st, items, beforeId, afterId, loopsToIgnore)
              == if Done(Step(st, items[0], beforeId, afterId, loopsToIgnore).value)
                 then Step(st, items[0], beforeId, afterId, loopsToIgnore)
                 else Run(Step(st, items[0], beforeId, afterId, loopsToIgnore).value, items[1..],
                          beforeId, afterId, loopsToIgnore)
  {
  }

  /** `_pad_lex_pt_with_zeros`: append zeros up to `length`; Python's
      `[0] * k` is empty for negative `k`, so a longer point is kept. */
  function PadLexPtWithZeros(inst: StatementInstance, length: int): (r: StatementInstance)
    ensures r.stmt == inst.stmt
    ensures |r.lexPt| == if length > |inst.lexPt| then length else |inst.lexPt|
    ensures r.lexPt[..|inst.lexPt|] == inst.lexPt
    ensures forall k :: |inst.lexPt| <= k < |r.lexPt| ==> r.lexPt[k] == Int(0)
  {
    if length > |inst.lexPt| then
      var padded := inst.lexPt + seq(length - |inst.lexPt|, _ => Int(0));
      assert padded[..|inst.lexPt|] == inst.lexPt;
      StatementInstance(inst.stmt, padded)
    else inst
  }

  function Max(a: nat, b: nat): nat {
    if a >= b then a else b
  }

  /** What building a `LexSchedule` produces: the two padded instances, or the
      exception it raises. A prohibited name `statement` fails the opening
      assertion; a target that never occurs leaves an instance at `None`,
      on which `max_lex_dims` fails. */
  function BuildSchedule(items: seq<LinItem>, beforeId: string, afterId: string,
                         prohibitedVarNames: seq<string>, loopsToIgnore: set<string>)
    : Result<(StatementInstance, StatementInstance)>
  {
    if StatementVarName in prohibitedVarNames then Failure(AssertionError)
    else
      match Run(InitState(), items, beforeId, afterId, loopsToIgnore)
      case Failure(e) => Failure(e)
      case Success(st) =>
        if !Done(st) then Failure(AttributeError("'NoneType' object has no attribute 'lex_pt'"))
        else
          var length := Max(|st.before.value.lexPt|, |st.after.value.lexPt|);
          Success((PadLexPtWithZeros(st.before.value, length), PadLexPtWithZeros(st.after.value, length)))
  }

  /** The parts of one schedule map that `create_isl_maps` assembles before
      handing them to isl: the map's space, the domain with the `statement`
      dimension inserted, and the input and output tuples of the single
      tuple pair. */
  datatype SchedMapParts = SchedMapParts(space: Space, domain: Space, inTuple: seq<LexEntry>,
                                         outTuple: seq<LexEntry>)

  /** `LexSchedule`: the two statement instances of a dependency pair. */
  class LexSchedule {
    var stmtInstanceBefore: Option<StatementInstance>
    var stmtInstanceAfter: Option<StatementInstance>

    /** The opening of `__init__`: nothing recorded yet. */
    constructor ()
      ensures stmtInstanceBefore.None? && stmtInstanceAfter.None?
    {
      stmtInstanceBefore := None;
      stmtInstanceAfter := None;
    }

    /** One item of the walk of `__init__`, on the walk's local point, flags
        and statement counter and on the two instance fields. */
    method WalkItem(pt: seq<LexEntry>, flags: seq<bool>, nextSid: nat, item: LinItem,
                    beforeId: string, afterId: string, loopsToIgnore: set<string>)
      returns (r: Result<()>, pt': seq<LexEntry>, flags': seq<bool>, nextSid': nat)
      requires WellFormed(WalkState(pt, flags, nextSid, stmtInstanceBefore, stmtInstanceAfter))
      modifies this
      ensures r.Failure? <==>
                Step(WalkState(pt, flags, nextSid, old(stmtInstanceBefore), old(stmtInstanceAfter)), item,
                     beforeId, afterId, loopsToIgnore).Failure?
      ensures r.Failure? ==> r.error == Step(WalkState(pt, flags, nextSid, old(stmtInstanceBefore), old(stmtInstanceAfter)),
                                             item, beforeId, afterId, loopsToIgnore).error
      ensures r.Success? ==>
                Step(WalkState(pt, flags, nextSid, old(stmtInstanceBefore), old(stmtInstanceAfter)), item,
                     beforeId, afterId, loopsToIgnore)
                == Success(WalkState(pt', flags', nextSid', stmtInstanceBefore, stmtInstanceAfter))
    {
      ghost var prev := WalkState(pt, flags, nextSid, stmtInstanceBefore, stmtInstanceAfter);
      pt', flags', nextSid' := pt, flags, nextSid;
      r := Success(());
      match item {
        case EnterLoop(iname) =>
          if iname !in loopsToIgnore {
            EnterStep(prev, iname, beforeId, afterId, loopsToIgnore);
            if flags'[|flags'| - 1] {
              pt' := pt'[|pt'| - 1 := Int(pt'[|pt'| - 1].n + 1)];
              flags' := flags'[|flags'| - 1 := false];
            }
            pt' := pt' + [Name(iname), Int(0)];
            flags' := flags' + [false];
          }
        case LeaveLoop(iname) =>
          if iname !in loopsToIgnore {
            if |pt'| < 2 {
              return Failure(IndexError("pop from empty list")), pt', flags', nextSid';
            }
            LeaveStep(prev, iname, beforeId, afterId, loopsToIgnore);
            pt' := pt'[..|pt'| - 2];
            flags' := flags'[..|flags'| - 1];
            if flags'[|flags'| - 1] {
              pt' := pt'[|pt'| - 1 := Int(pt'[|pt'| - 1].n + 1)];
              flags' := flags'[|flags'| - 1 := false];
            }
          }
        case _ =>
          var id := InsnIdOf(item);
          if id.Some? {
            var added := false;
            if id.value == beforeId {
              stmtInstanceBefore := Some(StatementInstance(Statement(id.value, Some(nextSid), None), pt));
              added := true;
            }
            if id.value == afterId {
              stmtInstanceAfter := Some(StatementInstance(Statement(id.value, Some(nextSid), None), pt));
              added := true;
            }
            if added {
              pt' := pt'[|pt'| - 1 := Int(pt'[|pt'| - 1].n + 1)];
              nextSid' := nextSid' + 1;
              flags' := seq(|flags'|, _ => true);
            }
          }
      }
    }

    /** The walk of `__init__`: one pass over the items, recording the two
        target instances into the fields and stopping once both are set. */
    method Walk(items: seq<LinItem>, beforeId: string, afterId: string, loopsToIgnore: set<string>)
      returns (r: Result<()>)
      requires stmtInstanceBefore.None? && stmtInstanceAfter.None?
      modifies this
      ensures Run(InitState(), items, beforeId, afterId, loopsToIgnore).Failure? <==> r.Failure?
      ensures r.Failure? ==> r.error == Run(InitState(), items, beforeId, afterId, loopsToIgnore).error
      ensures r.Success? ==>
                && stmtInstanceBefore == Run(InitState(), items, beforeId, afterId, loopsToIgnore).value.before
                && stmtInstanceAfter == Run(InitState(), items, beforeId, afterId, loopsToIgnore).value.after
    {
      var pt: seq<LexEntry> := [Int(0)];
      var flags: seq<bool> := [false];
      var nextSid: nat := 0;
      var i := 0;
      while i < |items|
        invariant 0 <= i <= |items|
        invariant WellFormed(WalkState(pt, flags, nextSid, stmtInstanceBefore, stmtInstanceAfter))
        invariant !Done(WalkState(pt, flags, nextSid, stmtInstanceBefore, stmtInstanceAfter))
        invariant Run(WalkState(pt, flags, nextSid, stmtInstanceBefore, stmtInstanceAfter), items[i..],
                      beforeId, afterId, loopsToIgnore)
                  == Run(InitState(), items, beforeId, afterId, loopsToIgnore)
      {
        ghost var prev := WalkState(pt, flags, nextSid, stmtInstanceBefore, stmtInstanceAfter);
        assert items[i..][1..] == items[i + 1..];
        RunUnfold(prev, items[i..], beforeId, afterId, loopsToIgnore);
        var stepped;
        stepped, pt, flags, nextSid := WalkItem(pt, flags, nextSid, items[i], beforeId, afterId, loopsToIgnore);
        if stepped.Failure? {
          return Failure(stepped.error);
        }
        if stmtInstanceBefore.Some? && stmtInstanceAfter.Some? {
          return Success(());
        }
        i := i + 1;
      }
      return Success(());
    }

    /** `max_lex_dims`: the longer of the two points. */
    function MaxLexDims(): (r: nat)
      reads this
      requires stmtInstanceBefore.Some? && stmtInstanceAfter.Some?
      ensures r >= |stmtInstanceBefore.value.lexPt| && r >= |stmtInstanceAfter.value.lexPt|
      ensures r == |stmtInstanceBefore.value.lexPt| || r == |stmtInstanceAfter.value.lexPt|
    {
      Max(|stmtInstanceBefore.value.lexPt|, |stmtInstanceAfter.value.lexPt|)
    }

    /** `pad_lex_pts_with_zeros`: both points padded with zeros to the same
        length. */
    method PadLexPtsWithZeros()
      requires stmtInstanceBefore.Some? && stmtInstanceAfter.Some?
      modifies this
      ensures stmtInstanceBefore == Some(PadLexPtWithZeros(old(stmtInstanceBefore.value), old(MaxLexDims())))
      ensures stmtInstanceAfter == Some(PadLexPtWithZeros(old(stmtInstanceAfter.value), old(MaxLexDims())))
      ensures |stmtInstanceBefore.value.lexPt| == |stmtInstanceAfter.value.lexPt| == old(MaxLexDims())
    {
      var maxLexDim := MaxLexDims();
      stmtInstanceBefore := Some(PadLexPtWithZeros(stmtInstanceBefore.value, maxLexDim));
      stmtInstanceAfter := Some(PadLexPtWithZeros(stmtInstanceAfter.value, maxLexDim));
    }

    /** `get_lex_var_names`: `l0`, `l1`, ... one per lex dimension, all
        distinct. */
    function GetLexVarNames(): (r: seq<string>)
      reads this
      requires stmtInstanceBefore.Some? && stmtInstanceAfter.Some?
      ensures |r| == MaxLexDims()
      ensures forall i :: 0 <= i < |r| ==> r[i] == LexVarPrefix + NatToString(i)
      ensures Distinct(r)
    {
      IndexedNamesDistinct(LexVarPrefix, MaxLexDims());
      IndexedNames(LexVarPrefix, MaxLexDims())
    }

    /** `_get_isl_map_for_stmt_inst` in `create_isl_maps`, up to the isl call:
        the map's space is `[statement, inames...] -> [l0, l1, ...]`, the
        domain gains the `statement` dimension in front, and the tuple pair
        is `(int_id, inames...) -> lex point`. Without an iname order the
        domain's names are used, sorted. */
    method IslMapPartsForStmtInst(inst: StatementInstance, dom: Space, domInamesOrdered: Option<seq<string>>)
      returns (r: SchedMapParts)
      requires stmtInstanceBefore.Some? && stmtInstanceAfter.Some?
      requires inst.stmt.intId.Some?
      ensures r.space.params == [] && r.space.outDims == GetLexVarNames()
      ensures |r.space.inDims| >= 1 && r.space.inDims[0] == StatementVarName
      ensures domInamesOrdered.Some? ==> r.space.inDims[1..] == domInamesOrdered.value
      ensures domInamesOrdered.None? ==>
                && StrictlySorted(r.space.inDims[1..])
                && forall n :: n in r.space.inDims[1..] <==> n in Names(dom, SetDim)
      ensures Names(r.domain, SetDim) == [StatementVarName] + Names(dom, SetDim)
      ensures r.domain.params == dom.params && r.domain.inDims == dom.inDims
      ensures |r.inTuple| == |r.space.inDims|
      ensures r.inTuple[0] == Int(inst.stmt.intId.value)
      ensures forall k :: 1 <= k < |r.inTuple| ==> r.inTuple[k] == Name(r.space.inDims[k])
      ensures r.outTuple == inst.lexPt
      ensures |inst.lexPt| == MaxLexDims() ==> |r.outTuple| == |r.space.outDims|
    {
      var ordered := OrderedDomInames(dom, domInamesOrdered);
      var inNames := [StatementVarName] + ordered;
      var space := CheckerSpaceUtils.GetIslSpace([], inNames, GetLexVarNames());
      var domain := DomainWithStatement(dom);
      var inTuple := [Int(inst.stmt.intId.value)] + seq(|ordered|, k requires 0 <= k < |ordered| => Name(ordered[k]));
      assert inNames[1..] == ordered;
      r := SchedMapParts(space.value, domain, inTuple, inst.lexPt);
    }

    /** The iname order of a map's domain: the given one, or the domain's own
        names sorted (`list_var_names_in_isl_sets([dom])`). */
    static method OrderedDomInames(dom: Space, domInamesOrdered: Option<seq<string>>) returns (ordered: seq<string>)
      ensures domInamesOrdered.Some? ==> ordered == domInamesOrdered.value
      ensures domInamesOrdered.None? ==>
                && StrictlySorted(ordered)
                && forall n :: n in ordered <==> n in Names(dom, SetDim)
    {
      if domInamesOrdered.None? {
        ordered := CheckerSpaceUtils.ListVarNamesInIslSets([dom], SetDim);
        assert [dom][0] == dom;
      } else {
        ordered := domInamesOrdered.value;
      }
    }

    /** `add_dims_to_isl_set(dom, set, [statement], 0)`. */
    static method DomainWithStatement(dom: Space) returns (domain: Space)
      ensures Names(domain, SetDim) == [StatementVarName] + Names(dom, SetDim)
      ensures domain.params == dom.params && domain.inDims == dom.inDims
    {
      var added := CheckerSpaceUtils.AddDimsToIslSet(dom, SetDim, [StatementVarName], 0);
      assert Names(dom, SetDim)[..0] == [] && Names(dom, SetDim)[0..] == Names(dom, SetDim);
      domain := added.value;
      assert Names(domain, Param) == Names(dom, Param) && Names(domain, In) == Names(dom, In);
    }

    /** `create_isl_maps` with its bindings corrected (see
        `CreateIslMapsCannotRun`): the parts of the dependee's and the
        depender's maps. */
    method CreateIslMaps(domBefore: Space, domAfter: Space, domInamesOrderedBefore: Option<seq<string>>,
                         domInamesOrderedAfter: Option<seq<string>>)
      returns (before: SchedMapParts, after: SchedMapParts)
      requires stmtInstanceBefore.Some? && stmtInstanceAfter.Some?
      requires stmtInstanceBefore.value.stmt.intId.Some? && stmtInstanceAfter.value.stmt.intId.Some?
      ensures before.space.outDims == after.space.outDims == GetLexVarNames()
      ensures |before.inTuple| >= 1 && |after.inTuple| >= 1
      ensures before.inTuple[0] == Int(stmtInstanceBefore.value.stmt.intId.value)
      ensures after.inTuple[0] == Int(stmtInstanceAfter.value.stmt.intId.value)
      ensures before.outTuple == stmtInstanceBefore.value.lexPt && after.outTuple == stmtInstanceAfter.value.lexPt
    {
      before := IslMapPartsForStmtInst(stmtInstanceBefore.value, domBefore, domInamesOrderedBefore);
      after := IslMapPartsForStmtInst(stmtInstanceAfter.value, domAfter, domInamesOrderedAfter);
    }
  }

  /** The names `loopy/schedule/checker/utils.py` binds at module level: its
      licence strings, the `isl` module it imports and the functions it
      defines. */
  const CheckerUtilsNames: set<string> := {
    "__copyright__", "__license__", "isl", "prettier_map_string", "get_islvars_from_space", "add_dims_to_isl_set",
    "map_names_match_check", "insert_missing_dims_and_reorder_by_name",
    "ensure_dim_names_match_and_align", "create_new_isl_set_with_primes",
    "append_marker_to_isl_map_var_names", "make_islvars_with_marker",
    "append_marker_to_strings", "append_apostrophes", "_get_union",
    "list_var_names_in_isl_sets", "create_symbolic_map_from_tuples",
    "set_all_isl_space_names", "get_isl_space", "get_concurrent_inames",
    "get_insn_id_from_linearization_item", "get_all_nonconcurrent_insn_iname_subsets",
    "get_linearization_item_ids_within_inames", "_generate_orderings_starting_w_prefix",
    "get_orderings_of_length_n", "create_graph_from_pairs",
    "create_explicit_map_from_tuples", "get_EnterLoop_inames"}

  /** The names `create_isl_maps` imports from the utilities, as written. */
  const CreateIslMapsImports: seq<string> :=
    ["list_var_names_in_isl_sets", "get_isl_space", "create_symbolic_isl_map_from_tuples", "add_dims_to_isl_set"]

  /** The same import naming the map builder the utilities define. */
  const CreateIslMapsImportsCorrected: seq<string> :=
    ["list_var_names_in_isl_sets", "get_isl_space", "create_symbolic_map_from_tuples", "add_dims_to_isl_set"]

  /** The parameters of `create_symbolic_map_from_tuples`. */
  const SymbolicMapParams: set<string> := {"tuple_pairs_with_domains", "space"}

  /** The keywords `create_isl_maps` passes to the map builder, as written. */
  const SymbolicMapKeywords: seq<string> := ["tuple_pairs_with_domains", "space", "statement_var_name"]

  /** The same call without the keyword the builder does not take. */
  const SymbolicMapKeywordsCorrected: seq<string> := ["tuple_pairs_with_domains", "space"]

  /** The position of the first name that is not among `known`, if any. */
  function FirstAbsent(known: set<string>, names: seq<string>): (r: Option<nat>)
    ensures r.None? <==> forall k :: 0 <= k < |names| ==> names[k] in known
    ensures r.Some? ==> r.value < |names| && names[r.value] !in known
                        && forall j :: 0 <= j < r.value ==> names[j] in known
  {
    if |names| == 0 then None
    else if names[0] !in known then Some(0)
    else match FirstAbsent(known, names[1..])
      case None => None
      case Some(k) => Some(k + 1)
  }

  /** The Python bindings `create_isl_maps` needs before it builds a map:
      `from ... utils import (...)` raises `ImportError` at the first name the
      utilities do not define, and the keyword call of the map builder raises
      `TypeError` at the first keyword that is not one of its parameters. */
  function CreateIslMapsBindings(imports: seq<string>, keywords: seq<string>): (r: Result<()>)
    ensures r.Success? <==> (forall k :: 0 <= k < |imports| ==> imports[k] in CheckerUtilsNames)
                            && (forall k :: 0 <= k < |keywords| ==> keywords[k] in SymbolicMapParams)
    ensures r.Failure? && r.error.ImportError? ==> r.error.name in imports && r.error.name !in CheckerUtilsNames
    ensures r.Failure? && !r.error.ImportError? ==>
              (forall k :: 0 <= k < |imports| ==> imports[k] in CheckerUtilsNames)
              && r.error.TypeError? && r.error.msg in keywords && r.error.msg !in SymbolicMapParams
  {
    match FirstAbsent(CheckerUtilsNames, imports)
    case Some(k) => Failure(ImportError(imports[k]))
    case None =>
      match FirstAbsent(SymbolicMapParams, keywords)
      case Some(k) => Failure(TypeError(keywords[k]))
      case None => Success(())
  }

  /** `create_isl_maps` as written cannot run: its import names
      `create_symbolic_isl_map_from_tuples`, which the utilities do not
      define; with that name corrected, the call still passes
      `statement_var_name`, which the builder does not take; with both
      corrected, every binding succeeds and `CreateIslMaps` builds the maps. */
  lemma CreateIslMapsCannotRun()
    ensures CreateIslMapsBindings(CreateIslMapsImports, SymbolicMapKeywords)
            == Failure(ImportError("create_symbolic_isl_map_from_tuples"))
    ensures CreateIslMapsBindings(CreateIslMapsImportsCorrected, SymbolicMapKeywords)
            == Failure(TypeError("statement_var_name"))
    ensures CreateIslMapsBindings(CreateIslMapsImportsCorrected, SymbolicMapKeywordsCorrected) == Success(())
  {
    assert CreateIslMapsImports[2] !in CheckerUtilsNames;
    assert FirstAbsent(CheckerUtilsNames, CreateIslMapsImports) == Some(2);
    assert FirstAbsent(CheckerUtilsNames, CreateIslMapsImportsCorrected).None?;
    assert FirstAbsent(SymbolicMapParams, SymbolicMapKeywords) == Some(2);
  }

  /** Building a `LexSchedule`: the opening assertion on the prohibited names,
      the walk, then the padding. */
  method NewLexSchedule(items: seq<LinItem>, beforeId: string, afterId: string,
                        prohibitedVarNames: seq<string>, loopsToIgnore: set<string>)
    returns (r: Result<LexSchedule>)
    ensures r.Failure? <==> BuildSchedule(items, beforeId, afterId, prohibitedVarNames, loopsToIgnore).Failure?
    ensures r.Failure? ==> r.error == BuildSchedule(items, beforeId, afterId, prohibitedVarNames, loopsToIgnore).error
    ensures r.Success? ==>
              && fresh(r.value)
              && r.value.stmtInstanceBefore
                 == Some(BuildSchedule(items, beforeId, afterId, prohibitedVarNames, loopsToIgnore).value.0)
              && r.value.stmtInstanceAfter
                 == Some(BuildSchedule(items, beforeId, afterId, prohibitedVarNames, loopsToIgnore).value.1)
  {
    if StatementVarName in prohibitedVarNames {
      return Failure(AssertionError);
    }
    var sched := new LexSchedule();
    var walked := sched.Walk(items, beforeId, afterId, loopsToIgnore);
    if walked.Failure? {
      return Failure(walked.error);
    }
    if sched.stmtInstanceBefore.None? || sched.stmtInstanceAfter.None? {
      return Failure(AttributeError("'NoneType' object has no attribute 'lex_pt'"));
    }
    sched.PadLexPtsWithZeros();
    return Success(sched);
  }
}
