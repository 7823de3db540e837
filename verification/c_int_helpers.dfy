/** The integer helpers the C target emits as preambles
    (loopy/target/c/__init__.py): floor division and modulo on top of C99's
    truncating `/` and `%`, and exponentiation by squaring. Integers are
    unbounded here; the fixed-width types the macros are instantiated for
    are not modelled. */
module CIntHelpers {

  /** The absolute value. */
  function Abs(a: int): (r: nat)
    ensures r == a || r == -a
  {
    if a < 0 then -a else a
  }

  /** C99 `/`: the quotient truncated toward zero. */
  function CDiv(a: int, b: int): (q: int)
    requires b != 0
    ensures Abs(b) * Abs(q) <= Abs(a) < Abs(b) * Abs(q) + Abs(b)
    ensures q == 0 || ((q < 0) <==> ((a < 0) != (b < 0)))
  {
    var m := Abs(a) / Abs(b);
    NatDivBounds(Abs(a), Abs(b));
    if (a < 0) != (b < 0) then -m else m
  }

  /** Division of naturals rounds down. */
  lemma NatDivBounds(x: nat, y: nat)
    requires y > 0
    ensures y * (x / y) <= x < y * (x / y) + y
  {
  }

  /** C99 `%`: the remainder that goes with `CDiv`, so `a == b * (a / b) + a % b`. */
  function CMod(a: int, b: int): (r: int)
    requires b != 0
    ensures a == b * CDiv(a, b) + r
    ensures Abs(r) < Abs(b)
    ensures r == 0 || ((r < 0) <==> (a < 0))
  {
    CDivSign(a, b);
    a - b * CDiv(a, b)
  }

  /** The magnitude of `b * CDiv(a, b)` never exceeds that of `a`, and the
      two have the same sign. */
  lemma CDivSign(a: int, b: int)
    requires b != 0
    ensures Abs(b * CDiv(a, b)) == Abs(b) * Abs(CDiv(a, b))
    ensures b * CDiv(a, b) == 0 || ((b * CDiv(a, b) < 0) <==> (a < 0))
  {
    var q := CDiv(a, b);
    var m := Abs(a) / Abs(b);
    assert Abs(q) == m;
    if a < 0 && b < 0 {
      assert b * q == (-b) * (-q);
      assert b * q == -(Abs(b) * m);
    } else if a < 0 {
      assert b * q == -(Abs(b) * m);
    } else if b < 0 {
      assert b * q == (-b) * (-q);
      assert b * q == Abs(b) * m;
    } else {
      assert b * q == Abs(b) * m;
    }
    MulNonNeg(Abs(b), m);
  }

  lemma MulNonNeg(x: nat, y: nat)
    ensures x * y >= 0
  {
  }

  /** The reference: the largest integer not above `a / b`. Dafny's own
      division rounds down exactly when the divisor is positive. */
  function FloorDiv(a: int, b: int): int
    requires b != 0
  {
    if b > 0 then a / b else (-a) / (-b)
  }

  /** The remainder that goes with `FloorDiv`. */
  function FloorMod(a: int, b: int): int
    requires b != 0
  {
    a - b * FloorDiv(a, b)
  }

  /** What makes `q` the floor of `a / b`: `a - b * q` lies between zero
      (included) and `b` (excluded). */
  predicate IsFloorQuotient(a: int, b: int, q: int)
    requires b != 0
  {
    if b > 0 then b * q <= a < b * q + b else b * q >= a > b * q + b
  }

  lemma FloorDivIsFloor(a: int, b: int)
    requires b != 0
    ensures IsFloorQuotient(a, b, FloorDiv(a, b))
  {
    if b < 0 {
      var q := (-a) / (-b);
      assert (-b) * q <= -a < (-b) * q + (-b);
      assert b * q == -((-b) * q);
    }
  }

  /** At most one integer is the floor quotient. */
  lemma FloorQuotientUnique(a: int, b: int, q1: int, q2: int)
    requires b != 0
    requires IsFloorQuotient(a, b, q1) && IsFloorQuotient(a, b, q2)
    ensures q1 == q2
  {
    if q1 < q2 {
      MulStep(b, q1, q2);
    } else if q2 < q1 {
      MulStep(b, q2, q1);
    }
  }

  /** Multiples of `b` at distinct integers are at least `|b|` apart. */
  lemma MulStep(b: int, x: int, y: int)
    requires b != 0 && x < y
    ensures b > 0 ==> b * y >= b * x + b
    ensures b < 0 ==> b * y <= b * x + b
  {
    var d := y - x;
    assert b * y == b * x + b * d;
    if b > 0 {
      MulGrows(b, d);
    } else {
      MulGrows(-b, d);
      assert b * d == -((-b) * d);
    }
  }

  lemma MulGrows(b: nat, d: int)
    requires d >= 1
    ensures b * d >= b
  {
    assert b * d == b + b * (d - 1);
    MulNonNeg(b, d - 1);
  }

  /** `loopy_floor_div`: when the signs differ, shift `a` away from zero by
      `|b| - 1` first so that truncation rounds down. */
  function LoopyFloorDiv(a: int, b: int): (q: int)
    requires b != 0
    ensures q == FloorDiv(a, b)
  {
    var a' := if (a < 0) != (b < 0) then a - (b + (if b < 0 then 1 else 0) - (if b >= 0 then 1 else 0)) else a;
    LoopyFloorDivIsFloor(a, b);
    CDiv(a', b)
  }

  lemma LoopyFloorDivIsFloor(a: int, b: int)
    requires b != 0
    ensures CDiv(if (a < 0) != (b < 0) then a - (b + (if b < 0 then 1 else 0) - (if b >= 0 then 1 else 0)) else a, b)
            == FloorDiv(a, b)
  {
    var a' := if (a < 0) != (b < 0) then a - (b + (if b < 0 then 1 else 0) - (if b >= 0 then 1 else 0)) else a;
    var q := CDiv(a', b);
    var m := Abs(a') / Abs(b);
    FloorDivIsFloor(a, b);
    if a < 0 && b > 0 {
      // a' == a - b + 1 <= 0 and q == -(|a'| / b)
      assert a' == a - b + 1;
      assert b * m <= -a' < b * m + b;
      assert q == -m || a' == 0;
      assert b * q == -(b * m);
      assert IsFloorQuotient(a, b, q);
    } else if a >= 0 && b < 0 {
      // a' == a - b - 1 >= 0 and q == -(a' / |b|)
      assert a' == a - b - 1;
      assert (-b) * m <= a' < (-b) * m + (-b);
      assert b * q == (-b) * m;
      assert IsFloorQuotient(a, b, q);
    } else if a < 0 && b < 0 {
      assert (-b) * m <= -a < (-b) * m + (-b);
      assert b * q == -((-b) * m);
      assert IsFloorQuotient(a, b, q);
    } else {
      assert b * m <= a < b * m + b;
      assert IsFloorQuotient(a, b, q);
    }
    FloorQuotientUnique(a, b, q, FloorDiv(a, b));
  }

  /** `loopy_floor_div_pos_b`: the same for a divisor known to be positive. */
  function LoopyFloorDivPosB(a: int, b: int): (q: int)
    requires b > 0
    ensures q == FloorDiv(a, b)
    ensures b * q <= a < b * q + b
  {
    var a' := if a < 0 then a - (b - 1) else a;
    LoopyFloorDivPosBIsFloor(a, b);
    CDiv(a', b)
  }

  lemma LoopyFloorDivPosBIsFloor(a: int, b: int)
    requires b > 0
    ensures CDiv(if a < 0 then a - (b - 1) else a, b) == FloorDiv(a, b)
  {
    var a' := if a < 0 then a - (b - 1) else a;
    var q := CDiv(a', b);
    var m := Abs(a') / b;
    FloorDivIsFloor(a, b);
    if a < 0 {
      assert b * m <= -a' < b * m + b;
      assert b * q == -(b * m);
    } else {
      assert b * m <= a < b * m + b;
    }
    assert IsFloorQuotient(a, b, q);
    FloorQuotientUnique(a, b, q, FloorDiv(a, b));
  }

  /** `loopy_mod`: C's remainder moved by `b` when its sign is not `b`'s. */
  function LoopyMod(a: int, b: int): (r: int)
    requires b != 0
    ensures r == FloorMod(a, b)
    ensures r == 0 || ((r < 0) <==> (b < 0))
    ensures Abs(r) < Abs(b)
  {
    var r0 := CMod(a, b);
    var r1 := if r0 < 0 && b > 0 then r0 + b else r0;
    var r2 := if r1 > 0 && b < 0 then r1 + b else r1;
    LoopyModIsFloorMod(a, b);
    r2
  }

  lemma LoopyModIsFloorMod(a: int, b: int)
    requires b != 0
    ensures var r0 := CMod(a, b);
            var r1 := if r0 < 0 && b > 0 then r0 + b else r0;
            var r2 := if r1 > 0 && b < 0 then r1 + b else r1;
            r2 == FloorMod(a, b)
  {
    var r0 := CMod(a, b);
    var r1 := if r0 < 0 && b > 0 then r0 + b else r0;
    var r2 := if r1 > 0 && b < 0 then r1 + b else r1;
    // r2 == a - b * q for the q that moving the remainder implies
    var q := if r2 == r0 then CDiv(a, b) else CDiv(a, b) - 1;
    assert r2 == a - b * q;
    assert IsFloorQuotient(a, b, q);
    FloorDivIsFloor(a, b);
    FloorQuotientUnique(a, b, q, FloorDiv(a, b));
  }

  /** `loopy_mod_pos_b`: C's remainder moved into `[0, b)`. */
  function LoopyModPosB(a: int, b: int): (r: int)
    requires b > 0
    ensures r == FloorMod(a, b)
    ensures 0 <= r < b
  {
    var r0 := CMod(a, b);
    LoopyModIsFloorMod(a, b);
    if r0 < 0 then r0 + b else r0
  }

  /** Floor division and modulo split every integer: `b * (a // b) + a % b == a`,
      the identity Python guarantees for the operators these helpers
      implement. */
  lemma LoopyDivModSplit(a: int, b: int)
    requires b != 0
    ensures b * LoopyFloorDiv(a, b) + LoopyMod(a, b) == a
  {
  }

  /** `x` to the power `n`. */
  function Pow(x: int, n: nat): int {
    if n == 0 then 1 else x * Pow(x, n - 1)
  }

  lemma {:induction false} PowSquare(x: int, m: nat)
    ensures Pow(x * x, m) == Pow(x, 2 * m)
  {
    if m > 0 {
      PowSquare(x, m - 1);
      calc {
        Pow(x * x, m);
        (x * x) * Pow(x * x, m - 1);
        (x * x) * Pow(x, 2 * m - 2);
        x * (x * Pow(x, 2 * m - 2));
        x * Pow(x, 2 * m - 1);
        Pow(x, 2 * m);
      }
    }
  }

  /** The body of the `int_pow` preamble for a non-negative exponent:
      exponentiation by repeated squaring. */
  method IntPow(x0: int, n0: int) returns (r: int)
    requires n0 >= 0
    ensures r == Pow(x0, n0)
  {
    if n0 == 0 {
      return 1;
    }
    var x, n, y := x0, n0, 1;
    while n > 1
      invariant n >= 1
      invariant y * Pow(x, n) == Pow(x0, n0)
      decreases n
    {
      PowSquare(x, n / 2);
      if CMod(n, 2) != 0 {
        assert n == 2 * (n / 2) + 1;
        assert Pow(x, n) == x * Pow(x, 2 * (n / 2));
        y := x * y;
        x := x * x;
      } else {
        assert n == 2 * (n / 2);
        x := x * x;
      }
      n := CDiv(n, 2);
    }
    assert Pow(x, 1) == x;
    return x * y;
  }
}
