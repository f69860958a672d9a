/**
 Floors and ceilings of quotients, over integers and over reals, as the scripts use them
 (`math.floor` and `math.ceil`). Each lemma turns a rounded quotient into a multiplication.
 */
module Rounding {

  function Max(a: int, b: int): int {
    if a >= b then a else b
  }

  function Min(a: int, b: int): int {
    if a <= b then a else b
  }

  /** `floor(a / b)`, by repeated subtraction: no division for the verifier to reason about. */
  function FloorDiv(a: int, b: int): int
    requires b > 0
    decreases if a < 0 then b - a else a
  {
    if a < 0 then FloorDiv(a + b, b) - 1
    else if a < b then 0
    else FloorDiv(a - b, b) + 1
  }

  function CeilDiv(a: int, b: int): int
    requires b > 0
  {
    -FloorDiv(-a, b)
  }

  /** A real-valued `math.ceil`. */
  function Ceil(x: real): (n: int)
    ensures n as real - 1.0 < x <= n as real
  {
    -((-x).Floor)
  }

  lemma MulLe(a: int, b: int, k: int)
    requires a <= b && k >= 0
    ensures a * k <= b * k
  {}

  lemma MulLt(a: int, b: int, k: int)
    requires k > 0
    ensures a * k < b * k <==> a < b
  {}

  lemma Distribute(x: real, y: real, r: real)
    ensures (x + y) * r == x * r + y * r && (x - y) * r == x * r - y * r
  {}

  /** Comparing reals whose multiples by `r` are integers. */
  lemma LessScaled(x: real, y: real, a: int, b: int, r: real)
    requires r > 0.0 && x * r == a as real && y * r == b as real
    ensures x < y <==> a < b
  {}

  lemma OneMore(q: int, b: int)
    ensures (q + 1) * b == q * b + b
  {}

  /** The floor is the only integer `q` with `q * b <= a < q * b + b`. */
  lemma {:induction false} FloorBounds(a: int, b: int)
    requires b > 0
    ensures FloorDiv(a, b) * b <= a < FloorDiv(a, b) * b + b
    decreases if a < 0 then b - a else a
  {
    if a < 0 {
      FloorBounds(a + b, b);
      OneMore(FloorDiv(a, b), b);
    } else if a >= b {
      FloorBounds(a - b, b);
      OneMore(FloorDiv(a - b, b), b);
    }
  }

  lemma {:induction false} AtMostFloor(k: int, a: int, b: int)
    requires b > 0
    ensures k <= FloorDiv(a, b) <==> k * b <= a
  {
    var q := FloorDiv(a, b);
    FloorBounds(a, b);
    if k <= q {
      MulLe(k, q, b);
    } else {
      MulLe(q + 1, k, b);
    }
  }

  lemma {:induction false} CeilAtMost(a: int, b: int, k: int)
    requires b > 0
    ensures CeilDiv(a, b) <= k <==> a <= k * b
  {
    AtMostFloor(-k, -a, b);
  }

  /** The quotient is the only integer between the two bounds. */
  lemma {:induction false} FloorUnique(a: int, b: int, q: int)
    requires b > 0 && q * b <= a < q * b + b
    ensures FloorDiv(a, b) == q
  {
    AtMostFloor(q, a, b);
    AtMostFloor(q + 1, a, b);
  }

  lemma {:induction false} CeilBounds(a: int, b: int)
    requires b > 0
    ensures CeilDiv(a, b) * b - b < a <= CeilDiv(a, b) * b
  {
    FloorBounds(-a, b);
  }

  lemma {:induction false} CeilUnique(a: int, b: int, q: int)
    requires b > 0 && q * b - b < a <= q * b
    ensures CeilDiv(a, b) == q
  {
    FloorUnique(-a, b, -q);
  }

  lemma {:induction false} FloorIsQuotient(a: int, b: int)
    requires b > 0
    ensures FloorDiv(a, b) == a / b
  {
    assert a == (a / b) * b + a % b;
    FloorUnique(a, b, a / b);
  }

  /** `a % b` as Lua has it: the remainder of the floor. */
  function Mod(a: int, b: int): int
    requires b > 0
    decreases if a < 0 then b - a else a
  {
    if a < 0 then Mod(a + b, b) else if a < b then a else Mod(a - b, b)
  }

  lemma {:induction false} ModIsRemainder(a: int, b: int)
    requires b > 0
    ensures a == FloorDiv(a, b) * b + Mod(a, b) && 0 <= Mod(a, b) < b
    decreases if a < 0 then b - a else a
  {
    if a < 0 {
      ModIsRemainder(a + b, b);
      OneMore(FloorDiv(a, b), b);
    } else if a >= b {
      ModIsRemainder(a - b, b);
      OneMore(FloorDiv(a - b, b), b);
    }
  }

  lemma {:induction false} ModIsPercent(a: int, b: int)
    requires b > 0
    ensures Mod(a, b) == a % b
  {
    ModIsRemainder(a, b);
    FloorIsQuotient(a, b);
    hide Mod, FloorDiv;
  }

  lemma {:induction false} CeilShift(a: int, b: int, k: int)
    requires b > 0
    ensures CeilDiv(k * b + a, b) == k + CeilDiv(a, b)
  {
    CeilBounds(a, b);
    var q := CeilDiv(a, b);
    assert (k + q) * b == k * b + q * b;
    CeilUnique(k * b + a, b, k + q);
  }

  /** With `a / b == c / d`, a multiple of `b` is at most `a` when the same multiple of `d` is at most `c`. */
  lemma {:induction false} CrossMultiply(q: int, a: int, b: int, c: int, d: int, m: int, n: int)
    requires m > 0 && n > 0 && m * c == n * a && m * d == n * b
    ensures q * b <= a <==> q * d <= c
  {}

  /** `a / b == c / d`, so both floors are the same. */
  lemma {:induction false} SameFloor(a: int, b: int, c: int, d: int, m: int, n: int)
    requires b > 0 && d > 0 && m > 0 && n > 0
    requires m * c == n * a && m * d == n * b
    ensures FloorDiv(a, b) == FloorDiv(c, d)
  {
    hide FloorDiv;
    var p, q := FloorDiv(a, b), FloorDiv(c, d);
    AtMostFloor(p, a, b);
    AtMostFloor(p, c, d);
    CrossMultiply(p, a, b, c, d, m, n);
    AtMostFloor(q, a, b);
    AtMostFloor(q, c, d);
    CrossMultiply(q, a, b, c, d, m, n);
  }

  lemma {:induction false} SameCeil(a: int, b: int, c: int, d: int, m: int, n: int)
    requires b > 0 && d > 0 && m > 0 && n > 0
    requires m * c == n * a && m * d == n * b
    ensures CeilDiv(a, b) == CeilDiv(c, d)
  {
    assert m * -c == -(m * c) && n * -a == -(n * a);
    SameFloor(-a, b, -c, d, m, n);
  }

  /** `math.floor(x)` when `x * b` is the integer `a`. */
  lemma FloorReal(x: real, a: int, b: int)
    requires b > 0 && x * b as real == a as real
    ensures x.Floor == FloorDiv(a, b)
  {
    var q := x.Floor;
    var r := b as real;
    assert (q * b) as real == q as real * r;
    assert (q * b + b) as real == (q as real + 1.0) * r;
    LessScaled(x, q as real, a, q * b, r);
    LessScaled(x, q as real + 1.0, a, q * b + b, r);
    FloorUnique(a, b, q);
  }

  /** `math.ceil(x)` when `x * b` is the integer `a`. */
  lemma CeilReal(x: real, a: int, b: int)
    requires b > 0 && x * b as real == a as real
    ensures Ceil(x) == CeilDiv(a, b)
  {
    FloorReal(-x, -a, b);
  }
}
