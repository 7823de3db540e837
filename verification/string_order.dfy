/** Python's ordering of `str` values (code point by code point, a proper prefix
    first) and sorted, duplicate-free lists of strings, which is what
    `sorted(set_of_names)` returns. */
module StringOrder {

  predicate StrLt(a: string, b: string)
    decreases |a|
  {
    if |a| == 0 then |b| > 0
    else if |b| == 0 then false
    else if a[0] != b[0] then a[0] < b[0]
    else StrLt(a[1..], b[1..])
  }

  predicate StrLe(a: string, b: string) {
    a == b || StrLt(a, b)
  }

  lemma {:induction false} StrLtIrreflexive(a: string)
    ensures !StrLt(a, a)
  {
    if |a| > 0 { StrLtIrreflexive(a[1..]); }
  }

  lemma {:induction false} StrLtTransitive(a: string, b: string, c: string)
    requires StrLt(a, b) && StrLt(b, c)
    ensures StrLt(a, c)
    decreases |a|
  {
    if |a| > 0 && |b| > 0 && |c| > 0 && a[0] == b[0] && b[0] == c[0] {
      StrLtTransitive(a[1..], b[1..], c[1..]);
    }
  }

  lemma {:induction false} StrLtTotal(a: string, b: string)
    requires a != b
    ensures StrLt(a, b) || StrLt(b, a)
    decreases |a|
  {
    if |a| > 0 && |b| > 0 && a[0] == b[0] {
      assert a == [a[0]] + a[1..] && b == [b[0]] + b[1..];
      StrLtTotal(a[1..], b[1..]);
    }
  }

  lemma StrLtAsymmetric(a: string, b: string)
    requires StrLt(a, b)
    ensures !StrLt(b, a)
  {
    if StrLt(b, a) {
      StrLtTransitive(a, b, a);
      StrLtIrreflexive(a);
    }
  }

  /** `set(s)` for a list of strings. */
  function Elems(s: seq<string>): set<string> {
    set x | x in s
  }

  /** No string occurs twice. */
  predicate Distinct(s: seq<string>) {
    forall i, j :: 0 <= i < j < |s| ==> s[i] != s[j]
  }

  predicate StrictlySorted(s: seq<string>) {
    forall i, j :: 0 <= i < j < |s| ==> StrLt(s[i], s[j])
  }

  /** Inserts `x` at its place in a strictly sorted list, unless it is already there. */
  function {:induction false} InsertSorted(s: seq<string>, x: string): (r: seq<string>)
    requires StrictlySorted(s)
    ensures StrictlySorted(r)
    ensures Elems(r) == Elems(s) + {x}
  {
    if |s| == 0 then
      assert [x][0] == x;
      [x]
    else if x == s[0] then s
    else if StrLt(x, s[0]) then
      InsertFront(s, x);
      ElemsCons(x, s);
      [x] + s
    else
      StrLtTotal(x, s[0]);
      var t := InsertSorted(s[1..], x);
      assert forall k :: 0 <= k < |t| ==> StrLt(s[0], t[k]) by {
        forall k | 0 <= k < |t| ensures StrLt(s[0], t[k]) {
          assert t[k] in Elems(t);
          if t[k] != x {
            var m :| 0 <= m < |s[1..]| && s[1..][m] == t[k];
            assert s[m + 1] == t[k];
          }
        }
      }
      var r := [s[0]] + t;
      assert forall k :: 1 <= k < |r| ==> r[k] == t[k - 1];
      ElemsCons(s[0], t);
      assert s == [s[0]] + s[1..];
      ElemsCons(s[0], s[1..]);
      r
  }

  lemma ElemsCons(x: string, s: seq<string>)
    ensures Elems([x] + s) == {x} + Elems(s)
  {
    var r := [x] + s;
    forall y | y in Elems(s) ensures y in Elems(r) {
      var m :| 0 <= m < |s| && s[m] == y;
      assert r[m + 1] == y;
    }
    assert r[0] == x;
  }

  lemma ElemsEmpty(s: seq<string>)
    ensures Elems(s) == {} <==> s == []
  {
    if |s| > 0 { assert s[0] in Elems(s); }
  }

  lemma InsertFront(s: seq<string>, x: string)
    requires StrictlySorted(s) && |s| > 0 && StrLt(x, s[0])
    ensures StrictlySorted([x] + s)
  {
    var r := [x] + s;
    forall i, j | 0 <= i < j < |r| ensures StrLt(r[i], r[j]) {
      if i == 0 && j > 1 { StrLtTransitive(x, s[0], s[j - 1]); }
    }
  }

  /** `sorted(set(xs))`: the distinct strings of `xs` in ascending order. */
  function {:induction false} SortedDistinct(xs: seq<string>): (r: seq<string>)
    ensures StrictlySorted(r)
    ensures Elems(r) == Elems(xs)
  {
    if |xs| == 0 then []
    else
      var r := InsertSorted(SortedDistinct(xs[..|xs| - 1]), xs[|xs| - 1]);
      assert Elems(xs) == Elems(xs[..|xs| - 1]) + {xs[|xs| - 1]} by {
        forall y | y in Elems(xs) ensures y in Elems(xs[..|xs| - 1]) + {xs[|xs| - 1]} {
          var m :| 0 <= m < |xs| && xs[m] == y;
          if m < |xs| - 1 { assert xs[..|xs| - 1][m] == y; }
        }
      }
      r
  }

  /** A strictly sorted list is determined by its elements. */
  lemma {:induction false} StrictlySortedUnique(a: seq<string>, b: seq<string>)
    requires StrictlySorted(a) && StrictlySorted(b) && Elems(a) == Elems(b)
    ensures a == b
    decreases |a|
  {
    if |a| == 0 {
      ElemsEmpty(b);
    } else {
      assert a[0] in Elems(b) && |b| > 0;
      assert b[0] in Elems(a);
      if a[0] != b[0] {
        var i :| 0 <= i < |b| && b[i] == a[0];
        var j :| 0 <= j < |a| && a[j] == b[0];
        assert StrLt(b[0], a[0]) && StrLt(a[0], b[0]);
        StrLtAsymmetric(a[0], b[0]);
      }
      assert Elems(a[1..]) == Elems(b[1..]) by {
        forall y | y in Elems(a[1..]) ensures y in Elems(b[1..]) {
          var m :| 0 <= m < |a[1..]| && a[1..][m] == y;
          assert StrLt(a[0], y);
          assert y in Elems(b);
          var n :| 0 <= n < |b| && b[n] == y;
          if n == 0 { StrLtIrreflexive(y); }
          assert b[1..][n - 1] == y;
        }
        forall y | y in Elems(b[1..]) ensures y in Elems(a[1..]) {
          var m :| 0 <= m < |b[1..]| && b[1..][m] == y;
          assert StrLt(b[0], y);
          assert y in Elems(a);
          var n :| 0 <= n < |a| && a[n] == y;
          if n == 0 { StrLtIrreflexive(y); }
          assert a[1..][n - 1] == y;
        }
      }
      StrictlySortedUnique(a[1..], b[1..]);
      assert a == [a[0]] + a[1..] && b == [b[0]] + b[1..];
    }
  }
}
