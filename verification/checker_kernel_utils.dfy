/** The kernel queries of the linearization checker's utilities
    (loopy/schedule/checker/utils.py). A kernel is given by its inames, the
    set of inames carrying a concurrent tag, and its instructions. */
module CheckerKernelUtils {
  import opened Wrappers
  import opened Linearization

  /** `get_concurrent_inames`: split the kernel's inames into those with a
      concurrent tag and the rest. */
  method GetConcurrentInames(allInames: set<string>, concurrentTagged: set<string>)
    returns (conc: set<string>, nonConc: set<string>)
    ensures conc * nonConc == {}
    ensures conc + nonConc == allInames
    ensures forall n :: n in conc <==> n in allInames && n in concurrentTagged
    ensures forall n :: n in nonConc <==> n in allInames && n !in concurrentTagged
  {
    conc := {};
    var seen: set<string> := {};
    var remaining := allInames;
    while remaining != {}
      invariant seen + remaining == allInames && seen * remaining == {}
      invariant forall n :: n in conc <==> n in seen && n in concurrentTagged
      decreases |remaining|
    {
      var iname :| iname in remaining;
      if iname in concurrentTagged {
        conc := conc + {iname};
      }
      seen := seen + {iname};
      remaining := remaining - {iname};
    }
    nonConc := allInames - conc;
  }

  /** The non-concurrent inames, as `get_all_nonconcurrent_insn_iname_subsets`
      computes them when the caller does not pass them. */
  function NonConcurrentInames(allInames: set<string>, concurrentTagged: set<string>): (r: set<string>)
    ensures forall n :: n in r <==> n in allInames && n !in concurrentTagged
  {
    allInames - concurrentTagged
  }

  /** `get_all_nonconcurrent_insn_iname_subsets`: the distinct sets of
      non-concurrent inames the instructions lie within, without the empty
      set when `excludeEmpty` is set. */
  method GetAllNonconcurrentInsnInameSubsets(insns: seq<Instruction>, excludeEmpty: bool,
                                             nonConcInames: Option<set<string>>,
                                             allInames: set<string>, concurrentTagged: set<string>)
    returns (r: set<set<string>>)
    ensures forall s :: s in r <==>
              && (exists k :: 0 <= k < |insns| && s == insns[k].withinInames *
                    (if nonConcInames.Some? then nonConcInames.value else NonConcurrentInames(allInames, concurrentTagged)))
              && !(excludeEmpty && s == {})
  {
    var nonConc: set<string>;
    if nonConcInames.None? {
      var _, computed := GetConcurrentInames(allInames, concurrentTagged);
      nonConc := computed;
      assert nonConc == NonConcurrentInames(allInames, concurrentTagged);
    } else {
      nonConc := nonConcInames.value;
    }
    r := {};
    for i := 0 to |insns|
      invariant forall s :: s in r <==> exists k :: 0 <= k < i && s == insns[k].withinInames * nonConc
    {
      r := r + {insns[i].withinInames * nonConc};
    }
    if excludeEmpty {
      r := r - {{}};
    }
  }

  /** `get_linearization_item_ids_within_inames`: the ids of the instructions
      that lie within all of `inames`. */
  method GetLinearizationItemIdsWithinInames(insns: seq<Instruction>, inames: set<string>)
    returns (r: set<string>)
    ensures forall id :: id in r <==>
              exists k :: 0 <= k < |insns| && insns[k].id == id && inames <= insns[k].withinInames
  {
    r := {};
    for i := 0 to |insns|
      invariant forall id :: id in r <==>
                  exists k :: 0 <= k < i && insns[k].id == id && inames <= insns[k].withinInames
    {
      if inames <= insns[i].withinInames {
        r := r + {insns[i].id};
      }
    }
  }

  /** `get_EnterLoop_inames`: the inames of the loops the linearization enters. */
  method GetEnterLoopInames(items: seq<LinItem>) returns (r: set<string>)
    ensures forall n :: n in r <==> EnterLoop(n) in items
  {
    r := {};
    for i := 0 to |items|
      invariant forall n :: n in r <==> EnterLoop(n) in items[..i]
    {
      assert items[..i + 1] == items[..i] + [items[i]];
      if items[i].EnterLoop? {
        r := r + {items[i].iname};
      }
    }
    assert items[..|items|] == items;
  }

  /** `create_graph_from_pairs`: every "before" item is a key, mapped to the
      items that follow it in some pair. */
  method CreateGraphFromPairs(pairs: seq<(string, string)>) returns (graph: map<string, set<string>>)
    ensures forall b :: b in graph <==> exists k :: 0 <= k < |pairs| && pairs[k].0 == b
    ensures forall b, a :: b in graph ==> (a in graph[b] <==> (b, a) in pairs)
  {
    graph := map[];
    for i := 0 to |pairs|
      invariant forall b :: b in graph <==> exists k :: 0 <= k < i && pairs[k].0 == b
      invariant forall b :: b in graph ==> graph[b] == {}
    {
      graph := graph[pairs[i].0 := {}];
    }
    for i := 0 to |pairs|
      invariant forall b :: b in graph <==> exists k :: 0 <= k < |pairs| && pairs[k].0 == b
      invariant forall b, a :: b in graph ==> (a in graph[b] <==> (b, a) in pairs[..i])
    {
      var (before, after) := pairs[i];
      assert pairs[..i + 1] == pairs[..i] + [pairs[i]];
      graph := graph[before := graph[before] + {after}];
    }
    assert pairs[..|pairs|] == pairs;
  }
}
