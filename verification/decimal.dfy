/** Decimal rendering of integers, as Python's `"%d" % n` and `str(n)` produce it. */
module Decimal {

  function DigitChar(d: nat): (c: char)
    requires d < 10
    ensures '0' <= c <= '9'
  {
    "0123456789"[d]
  }

  function DigitValue(c: char): (d: nat)
    requires '0' <= c <= '9'
    ensures d < 10
    ensures DigitChar(d) == c
  {
    if c == '0' then 0 else if c == '1' then 1 else if c == '2' then 2
    else if c == '3' then 3 else if c == '4' then 4 else if c == '5' then 5
    else if c == '6' then 6 else if c == '7' then 7 else if c == '8' then 8 else 9
  }

  predicate IsDigits(s: string) {
    forall k :: 0 <= k < |s| ==> '0' <= s[k] <= '9'
  }

  /** The shortest decimal numeral of `n`, without sign or leading zeros. */
  function NatToString(n: nat): (s: string)
    ensures |s| >= 1 && IsDigits(s)
    ensures (s[0] == '0') <==> (n == 0)
  {
    if n < 10 then [DigitChar(n)] else NatToString(n / 10) + [DigitChar(n % 10)]
  }

  /** `"%d" % n`: a minus sign for a negative number, then the digits. */
  function IntToString(n: int): (s: string)
    ensures |s| >= 1
    ensures n < 0 <==> s[0] == '-'
  {
    if n < 0 then "-" + NatToString(-n) else NatToString(n)
  }

  /** The value of a non-empty numeral (Python's `int(s)` on digits only). */
  function ParseNat(s: string): nat
    requires IsDigits(s)
  {
    if |s| == 0 then 0 else 10 * ParseNat(s[..|s| - 1]) + DigitValue(s[|s| - 1])
  }

  lemma {:induction false} ParseNatToString(n: nat)
    ensures ParseNat(NatToString(n)) == n
  {
    var s := NatToString(n);
    if n < 10 {
      assert s[..|s| - 1] == [];
    } else {
      assert s[..|s| - 1] == NatToString(n / 10);
      ParseNatToString(n / 10);
    }
  }

  /** Distinct numbers render as distinct numerals. */
  lemma NatToStringInjective(m: nat, n: nat)
    requires NatToString(m) == NatToString(n)
    ensures m == n
  {
    ParseNatToString(m);
    ParseNatToString(n);
  }

  lemma {:induction false} ParseIntToString(n: int)
    ensures n < 0 ==> IntToString(n)[1..] == NatToString(-n)
    ensures n >= 0 ==> ParseNat(IntToString(n)) == n
  {
    if n >= 0 { ParseNatToString(n); }
  }

  lemma IntToStringInjective(m: int, n: int)
    requires IntToString(m) == IntToString(n)
    ensures m == n
  {
    ParseIntToString(m);
    ParseIntToString(n);
    if m < 0 {
      assert n < 0;
      NatToStringInjective(-m, -n);
    }
  }

  /** `[prefix + str(i) for i in range(n)]`, e.g. `l0, l1, ...` or `p0, p1, ...`. */
  function IndexedNames(prefix: string, n: nat): (r: seq<string>)
    ensures |r| == n
    ensures forall i :: 0 <= i < n ==> r[i] == prefix + NatToString(i)
  {
    seq(n, i requires 0 <= i => prefix + NatToString(i))
  }

  /** The names `prefix + str(i)` are pairwise distinct. */
  lemma IndexedNamesDistinct(prefix: string, n: nat)
    ensures forall i, j :: 0 <= i < j < n ==> IndexedNames(prefix, n)[i] != IndexedNames(prefix, n)[j]
  {
    var r := IndexedNames(prefix, n);
    forall i, j | 0 <= i < j < n ensures r[i] != r[j] {
      if r[i] == r[j] {
        assert r[i][|prefix|..] == NatToString(i);
        assert r[j][|prefix|..] == NatToString(j);
        NatToStringInjective(i, j);
      }
    }
  }
}
