/** The ordering search of the linearization checker's utilities
    (loopy/schedule/checker/utils.py): paths through an "allowed after"
    graph, each item at most once. */
module CheckerOrderings {
  import opened Wrappers
  import opened StringOrder

  /** Every item the graph mentions: its keys and their successors. */
  ghost function Universe(allowed: map<string, set<string>>): set<string> {
    allowed.Keys + (set k, x | k in allowed && x in allowed[k] :: x)
  }

  /** An ordering the graph explicitly allows: no repeated item, a key first,
      and each later item among the successors of the one before it. */
  predicate PathOk(allowed: map<string, set<string>>, o: seq<string>) {
    && Distinct(o)
    && (|o| > 0 ==> o[0] in allowed)
    && forall i :: 0 <= i < |o| - 1 ==> o[i] in allowed && o[i + 1] in allowed[o[i]]
  }

  /** Python's `if required_length:`: a given, non-zero length. */
  predicate LengthRequired(requiredLength: Option<int>) {
    requiredLength.Some? && requiredLength.value != 0
  }

  /** The orderings the search records: allowed paths, of the required length
      when one is required. */
  predicate Recorded(allowed: map<string, set<string>>, requiredLength: Option<int>, o: seq<string>) {
    PathOk(allowed, o) && (LengthRequired(requiredLength) ==> |o| == requiredLength.value)
  }

  /** Extending an allowed path by an allowed successor that is not yet on it. */
  lemma ExtendPath(allowed: map<string, set<string>>, p: seq<string>, item: string)
    requires PathOk(allowed, p)
    requires |p| == 0 ==> item in allowed
    requires |p| > 0 ==> p[|p| - 1] in allowed && item in allowed[p[|p| - 1]]
    requires item !in p
    ensures PathOk(allowed, p + [item])
    ensures item in Universe(allowed)
    ensures Universe(allowed) - Elems(p + [item]) < Universe(allowed) - Elems(p)
  {
    var q := p + [item];
    forall i, j | 0 <= i < j < |q| ensures q[i] != q[j] {
      if j == |p| {
        assert q[i] == p[i];
      } else {
        assert q[i] == p[i] && q[j] == p[j];
      }
    }
    forall i | 0 <= i < |q| - 1 ensures q[i] in allowed && q[i + 1] in allowed[q[i]] {
      if i < |p| - 1 {
        assert q[i] == p[i] && q[i + 1] == p[i + 1];
      }
    }
    assert Elems(q) == Elems(p) + {item};
  }

  /** An allowed path through `prefix` whose last item is not a key of the
      graph. The search reaches every such path unless it stops early, and
      looks up its last item there. */
  predicate Stuck(allowed: map<string, set<string>>, prefix: seq<string>, o: seq<string>) {
    PathOk(allowed, o) && prefix <= o && |o| > 0 && o[|o| - 1] !in allowed
  }

  /** A graph where every successor is itself a key. */
  predicate Closed(allowed: map<string, set<string>>) {
    forall k :: k in allowed ==> allowed[k] <= allowed.Keys
  }

  /** In a closed graph no allowed path ends outside the keys. */
  lemma ClosedNeverStuck(allowed: map<string, set<string>>, prefix: seq<string>)
    requires Closed(allowed)
    ensures forall o :: !Stuck(allowed, prefix, o)
  {
    forall o | PathOk(allowed, o) && |o| > 1
      ensures o[|o| - 1] in allowed
    {
      var i := |o| - 2;
      assert o[i] in allowed && o[i + 1] in allowed[o[i]];
    }
  }

  /** A stuck path that does not end at `prefix` leaves it through one of
      the items the search tries next. */
  lemma StuckBranch(allowed: map<string, set<string>>, prefix: seq<string>, o: seq<string>)
    requires PathOk(allowed, prefix) && Stuck(allowed, prefix, o)
    requires |prefix| > 0 ==> prefix[|prefix| - 1] in allowed
    ensures |o| > |prefix|
    ensures |prefix| == 0 ==> o[0] in allowed.Keys
    ensures |prefix| > 0 ==> o[|prefix|] in allowed[prefix[|prefix| - 1]] - Elems(prefix)
  {
    if |prefix| > 0 {
      var i := |prefix| - 1;
      assert o[i] == prefix[i];
      assert o[i] in allowed && o[i + 1] in allowed[o[i]];
      forall j | 0 <= j < |prefix| ensures prefix[j] != o[|prefix|] {
        assert prefix[j] == o[j];
      }
    }
  }

  /** The items the search tries after `prefix`: every key for the empty
      prefix, otherwise the successors of its last item not yet on it (none
      when the last item has no entry and the lookup does not raise). */
  predicate NextItems(allowed: map<string, set<string>>, prefix: seq<string>, next: set<string>) {
    && (|prefix| == 0 ==> next == allowed.Keys)
    && (|prefix| > 0 && prefix[|prefix| - 1] in allowed ==>
          next == allowed[prefix[|prefix| - 1]] - Elems(prefix))
    && (|prefix| > 0 && prefix[|prefix| - 1] !in allowed ==> next == {})
  }

  /** One item may extend an allowed path `p`. */
  predicate Leads(allowed: map<string, set<string>>, p: seq<string>, item: string) {
    && (|p| == 0 ==> item in allowed)
    && (|p| > 0 ==> p[|p| - 1] in allowed && item in allowed[p[|p| - 1]])
    && item !in p
  }

  /** The items tried next may each extend the prefix, and every allowed
      path strictly through the prefix continues with one of them. */
  lemma NextItemsSound(allowed: map<string, set<string>>, prefix: seq<string>, next: set<string>)
    requires PathOk(allowed, prefix) && NextItems(allowed, prefix, next)
    ensures forall item :: item in next ==> Leads(allowed, prefix, item)
    ensures forall o :: PathOk(allowed, o) && prefix < o ==> o[|prefix|] in next
  {
    forall o | PathOk(allowed, o) && prefix < o ensures o[|prefix|] in next {
      if |prefix| > 0 {
        var i := |prefix| - 1;
        assert o[i] == prefix[i];
        assert o[i] in allowed && o[i + 1] in allowed[o[i]];
        forall j | 0 <= j < |prefix| ensures prefix[j] != o[|prefix|] {
          assert prefix[j] == o[j];
        }
      }
    }
  }

  /** Every stuck path through `prefix` leaves it through `next`. */
  lemma StuckLeaveThrough(allowed: map<string, set<string>>, prefix: seq<string>, next: set<string>)
    requires PathOk(allowed, prefix)
    requires |prefix| > 0 ==> prefix[|prefix| - 1] in allowed && next == allowed[prefix[|prefix| - 1]] - Elems(prefix)
    requires |prefix| == 0 ==> next == allowed.Keys
    ensures forall o :: Stuck(allowed, prefix, o) ==> |o| > |prefix| && o[|prefix|] in next
  {
    forall o | Stuck(allowed, prefix, o) ensures |o| > |prefix| && o[|prefix|] in next {
      StuckBranch(allowed, prefix, o);
    }
  }

  /** When nothing is stuck through `prefix + [item]`, no stuck path
      through `prefix` continues with `item`. */
  lemma NoStuckThrough(allowed: map<string, set<string>>, prefix: seq<string>, item: string)
    requires forall o :: !Stuck(allowed, prefix + [item], o)
    ensures forall o :: Stuck(allowed, prefix, o) && |o| > |prefix| ==> o[|prefix|] != item
  {
    forall o | Stuck(allowed, prefix, o) && |o| > |prefix| ensures o[|prefix|] != item {
      if o[|prefix|] == item {
        StuckLonger(allowed, prefix, item, o);
        assert false;
      }
    }
  }

  /** When nothing through `prefix + [item]` is recorded, no recorded path
      through `prefix` continues with `item`. */
  lemma NoneRecordedThrough(allowed: map<string, set<string>>, requiredLength: Option<int>,
                            prefix: seq<string>, item: string)
    requires forall o :: !(Recorded(allowed, requiredLength, o) && prefix + [item] <= o)
    ensures forall o :: Recorded(allowed, requiredLength, o) && prefix < o ==> o[|prefix|] != item
  {
    forall o | Recorded(allowed, requiredLength, o) && prefix < o ensures o[|prefix|] != item {
      if o[|prefix|] == item {
        assert false;
      }
    }
  }

  /** A stuck path through `prefix + [item]` is stuck through `prefix`. */
  lemma StuckShorter(allowed: map<string, set<string>>, prefix: seq<string>, item: string, o: seq<string>)
    requires Stuck(allowed, prefix + [item], o)
    ensures Stuck(allowed, prefix, o)
  {
    assert o[..|prefix|] == (prefix + [item])[..|prefix|] == prefix;
  }

  /** A stuck path through `prefix` that continues with `item` is stuck
      through `prefix + [item]`. */
  lemma StuckLonger(allowed: map<string, set<string>>, prefix: seq<string>, item: string, o: seq<string>)
    requires Stuck(allowed, prefix, o) && |o| > |prefix| && o[|prefix|] == item
    ensures Stuck(allowed, prefix + [item], o)
  {
    assert o[..|prefix| + 1] == prefix + [item];
  }

  /** `_generate_orderings_starting_w_prefix`: record `startPrefix` when it
      qualifies, then try every allowed next item not already on it, stopping
      as soon as something is recorded when `returnFirstFound` is set. The
      set Python shares between the calls is threaded through as argument
      and result. With `lookupRaises` the successors of the last item are
      `allowed_after_dict[start_prefix[-1]]`, which raises `KeyError` for an
      item that is not a key, as the source does; without it a missing key
      has no successors. */
  method GenerateOrderingsStartingWithPrefix(allowed: map<string, set<string>>, orderings: set<seq<string>>,
                                             requiredLength: Option<int>, startPrefix: seq<string>,
                                             returnFirstFound: bool, lookupRaises: bool)
    returns (r: Result<set<seq<string>>>)
    requires PathOk(allowed, startPrefix)
    requires forall o :: o in orderings ==> Recorded(allowed, requiredLength, o)
    ensures r.Failure? ==> r.error.KeyError? && lookupRaises && exists o :: Stuck(allowed, startPrefix, o)
    ensures lookupRaises && !returnFirstFound && (exists o :: Stuck(allowed, startPrefix, o)) ==> r.Failure?
    ensures r.Success? ==> orderings <= r.value
    ensures r.Success? ==> forall o :: o in r.value ==> Recorded(allowed, requiredLength, o)
    ensures r.Success? && !returnFirstFound ==>
              forall o :: Recorded(allowed, requiredLength, o) && startPrefix <= o ==> o in r.value
    ensures r.Success? && returnFirstFound && orderings == {} ==> |r.value| <= 1
    ensures (r.Success? && returnFirstFound && orderings == {}
             && exists o :: Recorded(allowed, requiredLength, o) && startPrefix <= o) ==> |r.value| == 1
    decreases Universe(allowed) - Elems(startPrefix), 1
  {
    var next: set<string>;
    if |startPrefix| > 0 {
      var last := startPrefix[|startPrefix| - 1];
      if last !in allowed {
        if lookupRaises {
          assert Stuck(allowed, startPrefix, startPrefix);
          return Failure(KeyError(last));
        }
        next := {};
      } else {
        next := allowed[last] - Elems(startPrefix);
      }
    } else {
      next := allowed.Keys;
    }
    NextItemsSound(allowed, startPrefix, next);
    if lookupRaises && !returnFirstFound {
      StuckLeaveThrough(allowed, startPrefix, next);
    }

    var acc := orderings;
    if LengthRequired(requiredLength) {
      if |startPrefix| == requiredLength.value {
        acc := acc + {startPrefix};
        if returnFirstFound {
          return Success(acc);
        }
      }
    } else {
      acc := acc + {startPrefix};
      if returnFirstFound {
        return Success(acc);
      }
    }
    r := ExtendWithEach(allowed, acc, requiredLength, startPrefix, next, returnFirstFound, lookupRaises);
    if r.Success? && !returnFirstFound {
      forall o | Recorded(allowed, requiredLength, o) && startPrefix <= o ensures o in r.value {
        if |o| == |startPrefix| {
          assert o == startPrefix;
        }
      }
    }
  }

  /** The loop of `_generate_orderings_starting_w_prefix`: extend the
      prefix by each of `next` in turn and search from there, giving up on
      the first `KeyError` and, when `returnFirstFound` is set, stopping once
      something is recorded. */
  method ExtendWithEach(allowed: map<string, set<string>>, orderings: set<seq<string>>,
                        requiredLength: Option<int>, startPrefix: seq<string>, next: set<string>,
                        returnFirstFound: bool, lookupRaises: bool)
    returns (r: Result<set<seq<string>>>)
    requires PathOk(allowed, startPrefix)
    requires forall o :: o in orderings ==> Recorded(allowed, requiredLength, o)
    requires forall item :: item in next ==> Leads(allowed, startPrefix, item)
    requires forall o :: PathOk(allowed, o) && startPrefix < o ==> o[|startPrefix|] in next
    requires lookupRaises && !returnFirstFound ==>
               forall o :: Stuck(allowed, startPrefix, o) ==> |o| > |startPrefix| && o[|startPrefix|] in next
    ensures r.Failure? ==> r.error.KeyError? && lookupRaises && exists o :: Stuck(allowed, startPrefix, o)
    ensures lookupRaises && !returnFirstFound && (exists o :: Stuck(allowed, startPrefix, o)) ==> r.Failure?
    ensures r.Success? ==> orderings <= r.value
    ensures r.Success? ==> forall o :: o in r.value ==> Recorded(allowed, requiredLength, o)
    ensures r.Success? && !returnFirstFound ==>
              forall o :: Recorded(allowed, requiredLength, o) && startPrefix < o ==> o in r.value
    ensures r.Success? && returnFirstFound && orderings == {} ==> |r.value| <= 1
    ensures (r.Success? && returnFirstFound && orderings == {}
             && exists o :: Recorded(allowed, requiredLength, o) && startPrefix < o) ==> |r.value| == 1
    decreases Universe(allowed) - Elems(startPrefix), 0
  {
    var acc := orderings;
    var remaining := next;
    while remaining != {}
      invariant remaining <= next
      invariant orderings <= acc
      invariant forall o :: o in acc ==> Recorded(allowed, requiredLength, o)
      invariant !returnFirstFound ==>
                  forall o :: Recorded(allowed, requiredLength, o) && startPrefix < o && o[|startPrefix|] !in remaining
                              ==> o in acc
      invariant lookupRaises && !returnFirstFound ==>
                  forall o :: Stuck(allowed, startPrefix, o) ==> |o| > |startPrefix| && o[|startPrefix|] in remaining
      invariant returnFirstFound && orderings == {} ==> acc == {}
      invariant returnFirstFound && acc == {} ==>
                  forall o :: Recorded(allowed, requiredLength, o) && startPrefix < o ==> o[|startPrefix|] in remaining
      decreases remaining
    {
      var item :| item in remaining;
      ExtendPath(allowed, startPrefix, item);
      var sub := GenerateOrderingsStartingWithPrefix(allowed, acc, requiredLength, startPrefix + [item],
                                                     returnFirstFound, lookupRaises);
      if sub.Failure? {
        var o :| Stuck(allowed, startPrefix + [item], o);
        StuckShorter(allowed, startPrefix, item, o);
        return sub;
      }
      if lookupRaises && !returnFirstFound {
        NoStuckThrough(allowed, startPrefix, item);
      }
      if returnFirstFound && sub.value == {} {
        NoneRecordedThrough(allowed, requiredLength, startPrefix, item);
      }
      acc := sub.value;
      remaining := remaining - {item};
      if returnFirstFound && acc != {} {
        return Success(acc);
      }
    }
    return Success(acc);
  }

  /** `get_orderings_of_length_n`: the search from the empty prefix, looking
      successors up as the source does. It fails exactly when some allowed
      path ends at an item that is not a key (whenever it searches them all),
      and never on a closed graph. */
  method GetOrderingsOfLengthN(allowed: map<string, set<string>>, requiredLength: int, returnFirstFound: bool)
    returns (r: Result<set<seq<string>>>)
    ensures r.Failure? ==> r.error.KeyError? && exists o :: Stuck(allowed, [], o)
    ensures !returnFirstFound ==> (r.Failure? <==> exists o :: Stuck(allowed, [], o))
    ensures Closed(allowed) ==> r.Success?
    ensures r.Success? ==> forall o :: o in r.value ==> PathOk(allowed, o)
    ensures r.Success? && requiredLength != 0 ==> forall o :: o in r.value ==> |o| == requiredLength
    ensures r.Success? && !returnFirstFound ==>
              forall o :: PathOk(allowed, o) && (requiredLength != 0 ==> |o| == requiredLength) ==> o in r.value
    ensures r.Success? && returnFirstFound ==> |r.value| <= 1
    ensures (r.Success? && returnFirstFound
             && exists o :: PathOk(allowed, o) && (requiredLength != 0 ==> |o| == requiredLength)) ==> |r.value| == 1
  {
    assert PathOk(allowed, []);
    r := GenerateOrderingsStartingWithPrefix(allowed, {}, Some(requiredLength), [], returnFirstFound, true);
    if r.Success? && returnFirstFound && exists o :: PathOk(allowed, o) && (requiredLength != 0 ==> |o| == requiredLength) {
      var o :| PathOk(allowed, o) && (requiredLength != 0 ==> |o| == requiredLength);
      assert Recorded(allowed, Some(requiredLength), o) && [] <= o;
    }
    if Closed(allowed) {
      ClosedNeverStuck(allowed, []);
    }
  }

  /** The search with a missing key read as "nothing may come after", as
      the documentation of `get_orderings_of_length_n` describes an empty
      entry: it never fails, whatever the graph. */
  method GetOrderingsSinksAsLeaves(allowed: map<string, set<string>>, requiredLength: int, returnFirstFound: bool)
    returns (r: set<seq<string>>)
    ensures forall o :: o in r ==> PathOk(allowed, o)
    ensures requiredLength != 0 ==> forall o :: o in r ==> |o| == requiredLength
    ensures !returnFirstFound ==>
              forall o :: PathOk(allowed, o) && (requiredLength != 0 ==> |o| == requiredLength) ==> o in r
    ensures returnFirstFound ==> |r| <= 1
    ensures (returnFirstFound
             && exists o :: PathOk(allowed, o) && (requiredLength != 0 ==> |o| == requiredLength)) ==> |r| == 1
  {
    assert PathOk(allowed, []);
    var res := GenerateOrderingsStartingWithPrefix(allowed, {}, Some(requiredLength), [], returnFirstFound, false);
    if res.Success? && returnFirstFound && exists o :: PathOk(allowed, o) && (requiredLength != 0 ==> |o| == requiredLength) {
      var o :| PathOk(allowed, o) && (requiredLength != 0 ==> |o| == requiredLength);
      assert Recorded(allowed, Some(requiredLength), o) && [] <= o;
    }
    r := res.value;
  }

  /** The graph `create_graph_from_pairs([("a", "b")])` has no entry for
      `b`, so the search for orderings of length 2 raises `KeyError` on
      reaching `("a", "b")`; read with sinks as leaves it returns that
      ordering. */
  method SinkRaisesKeyError() returns (asWritten: Result<set<seq<string>>>, corrected: set<seq<string>>)
    ensures asWritten.Failure? && asWritten.error.KeyError?
    ensures ["a", "b"] in corrected
  {
    var graph := map["a" := {"b"}];
    assert Stuck(graph, [], ["a", "b"]);
    asWritten := GetOrderingsOfLengthN(graph, 2, false);
    assert PathOk(graph, ["a", "b"]);
    corrected := GetOrderingsSinksAsLeaves(graph, 2, false);
  }
}
