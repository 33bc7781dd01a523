/** JavaScript numbers, as far as the core depends on them: a finite value, NaN,
    or an infinity with its sign. Rounding, overflow of finite arithmetic to an
    infinity, and the sign of zero are not modelled. */
module JsNumbers {

  datatype Num = Finite(value: real) | NaN | Infinity(negative: bool)

  /** `Number.isFinite(n)`. */
  predicate IsFinite(n: Num) {
    n.Finite?
  }

  /** JavaScript truthiness of a number: 0 and NaN are falsy. */
  predicate TruthyNum(n: Num) {
    match n
    case Finite(v) => v != 0.0
    case NaN => false
    case Infinity(_) => true
  }

  /** `a - b`. */
  function Sub(a: Num, b: Num): (r: Num)
    ensures IsFinite(r) <==> IsFinite(a) && IsFinite(b)
    ensures IsFinite(r) ==> r.value == a.value - b.value
    ensures (a.NaN? || b.NaN?) ==> r.NaN?
  {
    match (a, b)
    case (Finite(x), Finite(y)) => Finite(x - y)
    case (NaN, _) => NaN
    case (_, NaN) => NaN
    case (Infinity(s), Finite(_)) => Infinity(s)
    case (Finite(_), Infinity(t)) => Infinity(!t)
    case (Infinity(s), Infinity(t)) => if s == t then NaN else Infinity(s)
  }

  /** `a / b`, taking a zero divisor to be +0. */
  function Div(a: Num, b: Num): (r: Num)
    ensures IsFinite(a) && IsFinite(b) && b.value != 0.0 ==> r == Finite(a.value / b.value)
    ensures b == Finite(0.0) ==> !IsFinite(r)
    ensures !IsFinite(a) ==> !IsFinite(r)
    ensures (a.NaN? || b.NaN?) ==> r.NaN?
  {
    match (a, b)
    case (NaN, _) => NaN
    case (_, NaN) => NaN
    case (Finite(x), Finite(y)) =>
      if y != 0.0 then Finite(x / y)
      else if x == 0.0 then NaN
      else Infinity(x < 0.0)
    case (Finite(_), Infinity(_)) => Finite(0.0)
    case (Infinity(_), Infinity(_)) => NaN
    case (Infinity(s), Finite(y)) => Infinity(if y < 0.0 then !s else s)
  }

  /** `a * k` for a positive constant `k`. */
  function Scale(a: Num, k: real): (r: Num)
    requires k > 0.0
    ensures IsFinite(r) <==> IsFinite(a)
    ensures IsFinite(r) ==> r.value == a.value * k
  {
    match a
    case Finite(x) => Finite(x * k)
    case NaN => NaN
    case Infinity(s) => Infinity(s)
  }

  /** The largest magnitude of a `Date` time value in milliseconds, 8.64e15
      (ECMAScript 2024, section 21.4.1.31, TimeClip). */
  const MaxTimeMillis: real := 8640000000000000.0

  /** A time value a `Date` can hold: `toISOString` throws a RangeError for any
      other. */
  predicate ValidTimeValue(ms: Num) {
    ms.Finite? && -MaxTimeMillis <= ms.value <= MaxTimeMillis
  }
}
