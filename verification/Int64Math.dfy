/** Checked arithmetic of scripts. */
module Int64Math {
  import opened Basics
  import opened Int64Text

  const VALUE_SIZE: nat := 256

  datatype Op = Add | Sub | Mul | Div

  /** Division that truncates toward zero. */
  function Truncated(a: int, b: int): (q: int)
    requires b != 0
  {
    if a >= 0 then (if b > 0 then a / b else -(a / -b))
    else if b > 0 then -(-a / b) else -a / -b
  }

  /** The quotient leaves a remainder smaller than the divisor, with the sign of the dividend. */
  lemma {:induction false} TruncatedRemainder(a: int, b: int)
    requires b != 0
    ensures var r := a - b * Truncated(a, b);
            && (if b > 0 then -b < r < b else b < r < -b)
            && (a >= 0 ==> r >= 0) && (a <= 0 ==> r <= 0)
  {
    var m, d := if a >= 0 then a else -a, if b > 0 then b else -b;
    Divides(m, d);
    Signs(b, m / d);
  }

  lemma {:induction false} Divides(m: nat, d: nat)
    requires d > 0
    ensures 0 <= m - d * (m / d) < d
  {
  }

  lemma {:induction false} Signs(b: int, k: int)
    ensures b * -k == -(b * k) && -b * k == -(b * k) && -b * -k == b * k
  {
  }

  /** The exact result, where there is one. */
  function Exact(op: Op, a: int, b: int): (r: Option<int>)
  {
    match op
    case Add => Some(a + b)
    case Sub => Some(a - b)
    case Mul => Some(a * b)
    case Div => if b == 0 then None else Some(Truncated(a, b))
  }

  /** The exact result, if it is a 64-bit integer. */
  function Checked(op: Op, a: int, b: int): (r: Option<int>)
  {
    if Exact(op, a, b).Some? && InRange(Exact(op, a, b).value) then Exact(op, a, b) else None
  }

  /** A product exceeds a bound when a factor exceeds the truncated quotient. */
  lemma {:induction false} ProductExceeds(a: int, b: int, m: int)
    requires b > 0
    ensures a > m / b <==> a * b > m
  {
    var q := m / b;
    assert m == b * q + m % b;
    if a > q {
      Larger(q + 1, a, b);
    } else {
      Larger(a, q, b);
    }
  }

  lemma {:induction false} Larger(x: int, y: int, b: int)
    requires x <= y && b >= 0
    ensures x * b <= y * b
  {
    assert (y - x) * b >= 0;
  }

  /** The guards before a multiplication. */
  predicate MulOverflows(left: int, right: int)
  {
    || (left == INT64_MIN && right == -1) || (right == INT64_MIN && left == -1)
    || (left > 0 && right > 0 && left > Truncated(INT64_MAX, right))
    || (left > 0 && right < 0 && right < Truncated(INT64_MIN, left))
    || (left < 0 && right > 0 && left < Truncated(INT64_MIN, right))
    || (left < 0 && right < 0 && left < Truncated(INT64_MAX, right))
  }

  // The guards, by the signs of the factors.

  lemma {:induction false} GuardPositive(left: int, right: int)
    requires right > 0
    ensures left > Truncated(INT64_MAX, right) <==> left * right > INT64_MAX
  {
    ProductExceeds(left, right, INT64_MAX);
  }

  lemma {:induction false} GuardMixed(negative: int, positive: int)
    requires positive > 0
    ensures negative < Truncated(INT64_MIN, positive) <==> negative * positive < INT64_MIN
  {
    ProductExceeds(-negative, positive, -INT64_MIN);
    Signs(positive, negative);
  }

  lemma {:induction false} GuardNegative(left: int, right: int)
    requires right < 0
    ensures left < Truncated(INT64_MAX, right) <==> left * right > INT64_MAX
  {
    ProductExceeds(-left, -right, INT64_MAX);
    Signs(left, right);
  }

  lemma {:induction false} SignOfProduct(a: int, b: int)
    ensures a > 0 && b > 0 ==> a * b > 0
    ensures a < 0 && b < 0 ==> a * b > 0
    ensures a > 0 && b < 0 ==> a * b < 0
    ensures a < 0 && b > 0 ==> a * b < 0
    ensures a == 0 || b == 0 ==> a * b == 0
  {
  }

  /** The guards hold exactly for products out of range. */
  lemma {:induction false} MulGuards(left: int, right: int)
    requires InRange(left) && InRange(right)
    ensures MulOverflows(left, right) <==> !InRange(left * right)
  {
    SignOfProduct(left, right);
    if left > 0 && right > 0 {
      GuardPositive(left, right);
    } else if left > 0 && right < 0 {
      GuardMixed(right, left);
    } else if left < 0 && right > 0 {
      GuardMixed(left, right);
    } else if left < 0 && right < 0 {
      GuardNegative(left, right);
    }
  }

  lemma {:induction false} TwiceQuotient(m: nat, d: nat)
    requires d >= 2
    ensures 0 <= 2 * (m / d) <= m
  {
    var q := m / d;
    assert m == d * q + m % d;
    Larger(2, d, q);
  }

  /** Truncating division leaves the range in one case only. */
  lemma {:induction false} DivGuards(left: int, right: int)
    requires InRange(left) && InRange(right) && right != 0
    ensures InRange(Truncated(left, right)) <==> !(left == INT64_MIN && right == -1)
  {
    var m, d := if left >= 0 then left else -left, if right > 0 then right else -right;
    if d > 1 {
      TwiceQuotient(m, d);
    } else {
      assert m / d == m;
    }
  }

  /** The arithmetic of the `math` command. */
  method Evaluate(op: Op, left: int, right: int) returns (r: Option<int>)
    requires InRange(left) && InRange(right)
    ensures r == Checked(op, left, right)
  {
    match op
    case Add =>
      if (right > 0 && left > INT64_MAX - right) || (right < 0 && left < INT64_MIN - right) {
        return None;
      }
      return Some(left + right);
    case Sub =>
      if (right < 0 && left > INT64_MAX + right) || (right > 0 && left < INT64_MIN + right) {
        return None;
      }
      return Some(left - right);
    case Mul =>
      MulGuards(left, right);
      if MulOverflows(left, right) {
        return None;
      }
      return Some(left * right);
    case Div =>
      if right == 0 {
        return None;
      }
      DivGuards(left, right);
      if left == INT64_MIN && right == -1 {
        return None;
      }
      return Some(Truncated(left, right));
  }

  lemma {:induction false} NumeralFits(v: int)
    requires InRange(v)
    ensures |Numeral(v)| < VALUE_SIZE
  {
    var n := if v < 0 then -v else v;
    DecimalLength(n);
    BackwardsAt(n, 0);
  }

  /** The `math` command: texts in, text out.  The text it stores reads as the exact result. */
  method Calculate(left: string, op: Op, right: string) returns (r: Option<string>)
    ensures r.Some? <==>
              && Parsed(left).Some? && Parsed(right).Some?
              && Checked(op, Parsed(left).value, Parsed(right).value).Some?
    ensures r.Some? ==> Parsed(r.value) == Checked(op, Parsed(left).value, Parsed(right).value)
    ensures r.Some? ==> Canonical(r.value)
  {
    var a := ParseInteger(left);
    var b := ParseInteger(right);
    if a.None? || b.None? {
      return None;
    }
    var v := Evaluate(op, a.value, b.value);
    if v.None? {
      return None;
    }
    var text := FormatInteger(VALUE_SIZE, v.value);
    NumeralFits(v.value);
    NumeralReads(v.value);
    NumeralCanonical(v.value);
    r := Some(text);
  }

  /** The `inc` and `dec` commands. */
  method Count(text: string, up: bool) returns (r: Option<string>)
    ensures r.Some? <==> Parsed(text).Some? && InRange(Parsed(text).value + if up then 1 else -1)
    ensures r.Some? ==> Parsed(r.value) == Some(Parsed(text).value + if up then 1 else -1)
  {
    var number := ParseInteger(text);
    if number.None? || (up && number.value == INT64_MAX) || (!up && number.value == INT64_MIN) {
      return None;
    }
    var v := number.value + if up then 1 else -1;
    var counted := FormatInteger(VALUE_SIZE, v);
    NumeralFits(v);
    NumeralReads(v);
    r := Some(counted);
  }
}
