/** Preamble handling and the code generation context
    (loopy/codegen/result.py). A preamble is a pair of a sort tag and C
    code; removing the common indentation of a code block is a function of
    `loopy.tools` and is taken as a parameter. */
module CodegenResult {
  import opened Wrappers
  import opened StringOrder

  /** A preamble: its sort tag and its code. */
  type Preamble = (string, string)

  /** The tags of the preambles, in order. */
  function TagList(p: seq<Preamble>): (r: seq<string>)
    ensures |r| == |p| && forall k :: 0 <= k < |p| ==> r[k] == p[k].0
  {
    seq(|p|, k requires 0 <= k < |p| => p[k].0)
  }

  /** The code of the first preamble carrying tag `t`, if any does. */
  function FirstWith(p: seq<Preamble>, t: string): (r: Option<string>)
    ensures r.Some? <==> exists k :: 0 <= k < |p| && p[k].0 == t
    ensures r.Some? ==> exists k :: 0 <= k < |p| && p[k] == (t, r.value) && forall j :: 0 <= j < k ==> p[j].0 != t
  {
    if |p| == 0 then None
    else if p[0].0 == t then Some(p[0].1)
    else
      var rest := FirstWith(p[1..], t);
      assert forall k :: 1 <= k < |p| ==> p[k] == p[1..][k - 1];
      assert rest.Some? ==> exists k :: 1 <= k < |p| && p[k] == (t, rest.value) && forall j :: 0 <= j < k ==> p[j].0 != t by {
        if rest.Some? {
          var k :| 0 <= k < |p[1..]| && p[1..][k] == (t, rest.value) && forall j :: 0 <= j < k ==> p[1..][j].0 != t;
          assert p[k + 1] == (t, rest.value);
          assert forall j :: 0 <= j < k + 1 ==> p[j].0 != t by {
            forall j | 0 <= j < k + 1 ensures p[j].0 != t {
              if j > 0 { assert p[j] == p[1..][j - 1]; }
            }
          }
        }
      }
      rest
  }

  /** The first preamble with a tag is the one at the first position
      carrying it. */
  lemma FirstWithAt(p: seq<Preamble>, i: nat)
    requires i < |p|
    requires forall j :: 0 <= j < i ==> p[j].0 != p[i].0
    ensures FirstWith(p, p[i].0) == Some(p[i].1)
  {
    var r := FirstWith(p, p[i].0);
    var k :| 0 <= k < |p| && p[k] == (p[i].0, r.value) && forall j :: 0 <= j < k ==> p[j].0 != p[i].0;
    assert !(k < i) && !(i < k);
  }

  predicate SortedByTag(s: seq<Preamble>) {
    forall i, j :: 0 <= i < j < |s| ==> StrLe(s[i].0, s[j].0)
  }

  /** `x` placed before the first preamble whose tag is not below its own. */
  function InsertByTag(x: Preamble, s: seq<Preamble>): seq<Preamble> {
    if |s| == 0 then [x]
    else if StrLe(x.0, s[0].0) then [x] + s
    else [s[0]] + InsertByTag(x, s[1..])
  }

  /** Python's `sorted` with the tag as key: a stable sort. */
  function StableSortByTag(p: seq<Preamble>): seq<Preamble> {
    if |p| == 0 then [] else InsertByTag(p[0], StableSortByTag(p[1..]))
  }

  lemma StrLeTransitive(a: string, b: string, c: string)
    requires StrLe(a, b) && StrLe(b, c)
    ensures StrLe(a, c)
  {
    if a != b && b != c {
      StrLtTransitive(a, b, c);
    }
  }

  /** Inserting keeps every preamble and adds `x`. */
  lemma {:induction false} InsertByTagPermutes(x: Preamble, s: seq<Preamble>)
    ensures multiset(InsertByTag(x, s)) == multiset(s) + multiset{x}
  {
    if |s| > 0 && !StrLe(x.0, s[0].0) {
      InsertByTagPermutes(x, s[1..]);
      assert s == [s[0]] + s[1..];
    }
  }

  /** `x` comes before every preamble of its own tag. */
  lemma {:induction false} InsertByTagFirst(x: Preamble, s: seq<Preamble>)
    ensures forall t :: FirstWith(InsertByTag(x, s), t) == if t == x.0 then Some(x.1) else FirstWith(s, t)
  {
    if |s| > 0 && !StrLe(x.0, s[0].0) {
      InsertByTagFirst(x, s[1..]);
      var r := InsertByTag(x, s);
      assert r == [s[0]] + InsertByTag(x, s[1..]);
      assert r[1..] == InsertByTag(x, s[1..]);
    } else if |s| > 0 {
      assert InsertByTag(x, s)[1..] == s;
    }
  }

  /** The head of a sorted list that `x` goes after stays below everything
      the insertion into its tail produces. */
  lemma HeadBelowInsert(x: Preamble, s: seq<Preamble>)
    requires SortedByTag(s) && |s| > 0 && StrLe(s[0].0, x.0)
    ensures forall j :: 0 <= j < |InsertByTag(x, s[1..])| ==> StrLe(s[0].0, InsertByTag(x, s[1..])[j].0)
  {
    var t := InsertByTag(x, s[1..]);
    InsertByTagPermutes(x, s[1..]);
    forall j | 0 <= j < |t| ensures StrLe(s[0].0, t[j].0) {
      assert t[j] in multiset(t);
      if t[j] != x {
        assert t[j] in multiset(s[1..]);
        var m :| 0 <= m < |s[1..]| && s[1..][m] == t[j];
        assert s[m + 1] == t[j];
      }
    }
  }

  /** Inserting into a list sorted by tag keeps it sorted. */
  lemma {:induction false} InsertByTagSorted(x: Preamble, s: seq<Preamble>)
    requires SortedByTag(s)
    ensures SortedByTag(InsertByTag(x, s))
  {
    var r := InsertByTag(x, s);
    if |s| == 0 {
    } else if StrLe(x.0, s[0].0) {
      forall i, j | 0 <= i < j < |r| ensures StrLe(r[i].0, r[j].0) {
        if i == 0 && j > 1 {
          StrLeTransitive(x.0, s[0].0, s[j - 1].0);
        }
      }
    } else {
      if x.0 != s[0].0 { StrLtTotal(x.0, s[0].0); }
      InsertByTagSorted(x, s[1..]);
      var t := InsertByTag(x, s[1..]);
      assert r == [s[0]] + t;
      HeadBelowInsert(x, s);
      forall i, j | 0 <= i < j < |r| ensures StrLe(r[i].0, r[j].0) {
        if i == 0 {
          assert r[j] == t[j - 1];
        } else {
          assert r[i] == t[i - 1] && r[j] == t[j - 1];
        }
      }
    }
  }

  /** The stable sort orders by tag, keeps every preamble, and keeps the
      first preamble of each tag the first. */
  lemma {:induction false} StableSortProps(p: seq<Preamble>)
    ensures SortedByTag(StableSortByTag(p))
    ensures multiset(StableSortByTag(p)) == multiset(p)
    ensures forall t :: FirstWith(StableSortByTag(p), t) == FirstWith(p, t)
  {
    if |p| > 0 {
      StableSortProps(p[1..]);
      InsertByTagSorted(p[0], StableSortByTag(p[1..]));
      InsertByTagPermutes(p[0], StableSortByTag(p[1..]));
      InsertByTagFirst(p[0], StableSortByTag(p[1..]));
      assert p == [p[0]] + p[1..];
    }
  }

  /** The distinct tags in ascending order. */
  function TagsInOrder(p: seq<Preamble>): (r: seq<string>)
    ensures StrictlySorted(r)
    ensures forall t :: t in r <==> exists k :: 0 <= k < |p| && p[k].0 == t
  {
    var r := SortedDistinct(TagList(p));
    assert forall t :: t in r <==> t in Elems(r);
    r
  }

  /** The loop of `process_preambles` over the sorted preambles: the first
      code of each tag is kept, in the order of the tags. */
  method DedupSortedByTag(sorted: seq<Preamble>) returns (dedup: seq<string>, kept: seq<string>)
    requires SortedByTag(sorted)
    ensures |kept| == |dedup|
    ensures StrictlySorted(kept)
    ensures Elems(kept) == set j | 0 <= j < |sorted| :: sorted[j].0
    ensures forall k :: 0 <= k < |kept| ==> FirstWith(sorted, kept[k]) == Some(dedup[k])
  {
    var seen: set<string> := {};
    dedup := [];
    kept := [];
    for i := 0 to |sorted|
      invariant seen == set j | 0 <= j < i :: sorted[j].0
      invariant Elems(kept) == seen
      invariant StrictlySorted(kept)
      invariant |kept| == |dedup|
      invariant forall k :: 0 <= k < |kept| ==> FirstWith(sorted, kept[k]) == Some(dedup[k])
      invariant forall k, j :: 0 <= k < |kept| && i <= j < |sorted| ==> StrLe(kept[k], sorted[j].0)
    {
      var (tag, preamble) := sorted[i];
      if tag in seen {
        continue;
      }
      FirstWithAt(sorted, i);
      forall k | 0 <= k < |kept| ensures StrLt(kept[k], tag) {
        assert kept[k] in Elems(kept);
      }
      forall k, j | 0 <= k < |kept| + 1 && i + 1 <= j < |sorted| ensures StrLe((kept + [tag])[k], sorted[j].0) {
        if k == |kept| {
          assert StrLe(sorted[i].0, sorted[j].0);
        }
      }
      seen := seen + {tag};
      kept := kept + [tag];
      dedup := dedup + [preamble];
      assert Elems(kept) == Elems(kept[..|kept| - 1]) + {tag} by {
        assert kept[..|kept| - 1] + [tag] == kept;
      }
    }
  }

  /** Reordering the preambles does not change the tags they carry. */
  lemma SameTags(preambles: seq<Preamble>, sorted: seq<Preamble>)
    requires multiset(sorted) == multiset(preambles)
    ensures (set j | 0 <= j < |sorted| :: sorted[j].0) == Elems(TagsInOrder(preambles))
  {
    forall t ensures t in (set j | 0 <= j < |sorted| :: sorted[j].0) <==> t in Elems(TagsInOrder(preambles)) {
      if t in (set j | 0 <= j < |sorted| :: sorted[j].0) {
        var j :| 0 <= j < |sorted| && sorted[j].0 == t;
        assert sorted[j] in multiset(preambles);
        var m :| 0 <= m < |preambles| && preambles[m] == sorted[j];
      }
      if t in Elems(TagsInOrder(preambles)) {
        var m :| 0 <= m < |preambles| && preambles[m].0 == t;
        assert preambles[m] in multiset(sorted);
        var j :| 0 <= j < |sorted| && sorted[j] == preambles[m];
      }
    }
  }

  /** `process_preambles`: one entry per distinct tag, in ascending tag
      order, holding the first preamble with that tag with its common
      indentation removed and a newline added. */
  method ProcessPreambles(preambles: seq<Preamble>, dedent: string -> string) returns (r: seq<string>)
    ensures |r| == |TagsInOrder(preambles)|
    ensures forall k :: 0 <= k < |r| ==>
              && FirstWith(preambles, TagsInOrder(preambles)[k]).Some?
              && r[k] == dedent(FirstWith(preambles, TagsInOrder(preambles)[k]).value) + "\n"
  {
    var sorted := StableSortByTag(preambles);
    StableSortProps(preambles);
    var dedup, kept := DedupSortedByTag(sorted);
    SameTags(preambles, sorted);
    StrictlySortedUnique(kept, TagsInOrder(preambles));
    r := seq(|dedup|, k requires 0 <= k < |dedup| => dedent(dedup[k]) + "\n");
  }

  /** The preambles of the merged list: a tag present on both sides is kept
      once, with the host's code. */
  lemma MergedFirstWith(host: seq<Preamble>, device: seq<Preamble>, t: string)
    ensures FirstWith(host + device, t) ==
              if FirstWith(host, t).Some? then FirstWith(host, t) else FirstWith(device, t)
  {
    var all := host + device;
    if FirstWith(host, t).Some? {
      var k :| 0 <= k < |host| && host[k] == (t, FirstWith(host, t).value) && forall j :: 0 <= j < k ==> host[j].0 != t;
      assert all[k] == host[k];
      FirstWithAt(all, k);
    } else if FirstWith(device, t).Some? {
      var k :| 0 <= k < |device| && device[k] == (t, FirstWith(device, t).value)
               && forall j :: 0 <= j < k ==> device[j].0 != t;
      assert all[|host| + k] == device[k];
      forall j | 0 <= j < |host| + k ensures all[j].0 != t {
        if j >= |host| { assert all[j] == device[j - |host|]; }
      }
      FirstWithAt(all, |host| + k);
    } else {
      forall j | 0 <= j < |all| ensures all[j].0 != t {
        if j >= |host| { assert all[j] == device[j - |host|]; }
      }
    }
  }

  /** The preambles of `all_code`: host and device preambles processed
      together. */
  method AllCodePreambles(host: seq<Preamble>, device: seq<Preamble>, dedent: string -> string)
    returns (r: seq<string>)
    ensures |r| == |TagsInOrder(host + device)|
    ensures forall t :: t in TagsInOrder(host + device) <==>
              (exists k :: 0 <= k < |host| && host[k].0 == t) || (exists k :: 0 <= k < |device| && device[k].0 == t)
    ensures forall k :: 0 <= k < |r| ==>
              var t := TagsInOrder(host + device)[k];
              && (FirstWith(host, t).Some? || FirstWith(device, t).Some?)
              && r[k] == dedent(if FirstWith(host, t).Some? then FirstWith(host, t).value
                                else FirstWith(device, t).value) + "\n"
  {
    r := ProcessPreambles(host + device, dedent);
    forall t ensures t in TagsInOrder(host + device) <==>
                     (exists k :: 0 <= k < |host| && host[k].0 == t) || (exists k :: 0 <= k < |device| && device[k].0 == t)
    {
      MergedFirstWith(host, device, t);
    }
    forall k | 0 <= k < |r| ensures
      var t := TagsInOrder(host + device)[k];
      && (FirstWith(host, t).Some? || FirstWith(device, t).Some?)
      && r[k] == dedent(if FirstWith(host, t).Some? then FirstWith(host, t).value
                        else FirstWith(device, t).value) + "\n"
    {
      MergedFirstWith(host, device, TagsInOrder(host + device)[k]);
    }
  }

  /** What `VectorizationInfo` records: the vectorized iname and its length. */
  datatype VectorizationInfo = VectorizationInfo(iname: string, length: int)

  /** An iname's expression: a constant (as when a loop of one trip is
      unrolled) or a symbolic expression, kept opaque. */
  datatype IndexExpr = Constant(value: int) | Symbolic(handle: nat)

  /** `CodeGenerationContext`. */
  datatype Context = Context(inDevice: bool, inameExprs: map<string, IndexExpr>,
                             vectorizationInfo: Option<VectorizationInfo>)

  /** `CodeGenerationContext.copy` as written: an argument left at (or
      passed as) `None` keeps the field. */
  function Copy(ctx: Context, inDevice: Option<bool>, inameExprs: Option<map<string, IndexExpr>>,
                vectorizationInfo: Option<VectorizationInfo>): (r: Context)
    ensures inDevice.Some? ==> r.inDevice == inDevice.value
    ensures inameExprs.Some? ==> r.inameExprs == inameExprs.value
    ensures vectorizationInfo.Some? ==> r.vectorizationInfo == vectorizationInfo
    ensures inDevice.None? ==> r.inDevice == ctx.inDevice
    ensures inameExprs.None? ==> r.inameExprs == ctx.inameExprs
    ensures vectorizationInfo.None? ==> r.vectorizationInfo == ctx.vectorizationInfo
  {
    Context(if inDevice.None? then ctx.inDevice else inDevice.value,
            if inameExprs.None? then ctx.inameExprs else inameExprs.value,
            if vectorizationInfo.None? then ctx.vectorizationInfo else vectorizationInfo)
  }

  /** A copy with no arguments is the context itself, and a copy of a copy
      is one copy with the later arguments taking precedence. */
  lemma CopyLaws(ctx: Context, d1: Option<bool>, e1: Option<map<string, IndexExpr>>, v1: Option<VectorizationInfo>,
                 d2: Option<bool>, e2: Option<map<string, IndexExpr>>, v2: Option<VectorizationInfo>)
    ensures Copy(ctx, None, None, None) == ctx
    ensures Copy(Copy(ctx, d1, e1, v1), d2, e2, v2) ==
              Copy(ctx, if d2.Some? then d2 else d1, if e2.Some? then e2 else e1, if v2.Some? then v2 else v1)
  {
  }

  /** As written, no call of `copy` yields a context without vectorization
      information from one that has it. */
  lemma CopyCannotClearVectorization(ctx: Context, d: Option<bool>, e: Option<map<string, IndexExpr>>,
                                     v: Option<VectorizationInfo>)
    requires ctx.vectorizationInfo.Some?
    ensures Copy(ctx, d, e, v).vectorizationInfo.Some?
  {
  }

  /** A field update: keep the field, or set it to a value (which, for an
      optional field, may be `None`). */
  datatype Update<T> = Keep | Set(value: T)

  function Updated<T>(current: T, u: Update<T>): T {
    if u.Keep? then current else u.value
  }

  /** The copy with the meaning the code generator's calls rely on: every
      field given is set, even to `None`. */
  function CopyWith(ctx: Context, inDevice: Update<bool>, inameExprs: Update<map<string, IndexExpr>>,
                    vectorizationInfo: Update<Option<VectorizationInfo>>): (r: Context)
    ensures inDevice.Set? ==> r.inDevice == inDevice.value
    ensures inameExprs.Set? ==> r.inameExprs == inameExprs.value
    ensures vectorizationInfo.Set? ==> r.vectorizationInfo == vectorizationInfo.value
    ensures inDevice.Keep? ==> r.inDevice == ctx.inDevice
    ensures inameExprs.Keep? ==> r.inameExprs == ctx.inameExprs
    ensures vectorizationInfo.Keep? ==> r.vectorizationInfo == ctx.vectorizationInfo
  {
    Context(Updated(ctx.inDevice, inDevice), Updated(ctx.inameExprs, inameExprs),
            Updated(ctx.vectorizationInfo, vectorizationInfo))
  }

  function ToUpdate<T>(o: Option<T>): Update<T> {
    if o.None? then Keep else Set(o.value)
  }

  /** The corrected copy agrees with the written one on every call that does
      not ask to clear a field. */
  lemma CopyWithAgrees(ctx: Context, d: Option<bool>, e: Option<map<string, IndexExpr>>, v: VectorizationInfo)
    ensures CopyWith(ctx, ToUpdate(d), ToUpdate(e), Set(Some(v))) == Copy(ctx, d, e, Some(v))
    ensures CopyWith(ctx, ToUpdate(d), ToUpdate(e), Keep) == Copy(ctx, d, e, None)
  {
  }

  /** The context a sequential loop's body is generated in, as written: the
      loop clears the vectorization information and, for a loop of a single
      trip, binds the iname to its bound. */
  function SequentialLoopContextAsWritten(ctx: Context, iname: string, lowerBound: int, upperBound: int)
    : (r: Context)
    ensures r.vectorizationInfo == ctx.vectorizationInfo
  {
    if upperBound != lowerBound then Copy(ctx, None, None, None)
    else Copy(ctx, None, Some(ctx.inameExprs[iname := Constant(upperBound)]), None)
  }

  /** A sequential loop inside a vectorized one keeps the vectorization
      information as written. */
  lemma SequentialLoopKeepsVectorization()
    ensures var ctx := Context(false, map[], Some(VectorizationInfo("i_inner", 4)));
            SequentialLoopContextAsWritten(ctx, "j", 0, 9).vectorizationInfo == Some(VectorizationInfo("i_inner", 4))
  {
  }

  /** The same with the corrected copy: the body of a sequential loop is
      never generated as vectorized, and a loop of one trip binds its iname
      to the bound and keeps the others. */
  function SequentialLoopContext(ctx: Context, iname: string, lowerBound: int, upperBound: int): (r: Context)
    ensures r.vectorizationInfo.None?
    ensures r.inDevice == ctx.inDevice
    ensures upperBound != lowerBound ==> r.inameExprs == ctx.inameExprs
    ensures upperBound == lowerBound ==>
              r.inameExprs.Keys == ctx.inameExprs.Keys + {iname} && r.inameExprs[iname] == Constant(upperBound)
              && forall n :: n in ctx.inameExprs && n != iname ==> r.inameExprs[n] == ctx.inameExprs[n]
  {
    if upperBound != lowerBound then CopyWith(ctx, Keep, Keep, Set(None))
    else CopyWith(ctx, Keep, Set(ctx.inameExprs[iname := Constant(upperBound)]), Set(None))
  }

  /** The context a vectorized loop's body is generated in: it records the
      iname and the trip count. */
  function VectorLoopContext(ctx: Context, iname: string, lowerBound: int, upperBound: int): (r: Context)
    ensures r.vectorizationInfo == Some(VectorizationInfo(iname, upperBound - lowerBound + 1))
    ensures r.inDevice == ctx.inDevice && r.inameExprs == ctx.inameExprs
  {
    Copy(ctx, None, None, Some(VectorizationInfo(iname, upperBound - lowerBound + 1)))
  }
}
