/** Floating-point values as the analytics see them: a finite number, NaN or an infinity.
    Finite values are exact reals, so rounding and overflow are not part of the model;
    the special values follow the IEEE 754 rules for the operations the analytics use. */
module Values {

  datatype Value = Finite(r: real) | NaN | PosInf | NegInf

  predicate IsFinite(v: Value) { v.Finite? }

  /** `pd.isna(v) or np.isinf(v)` */
  predicate IsNanOrInf(v: Value) { !v.Finite? }

  function Neg(a: Value): (r: Value)
    ensures a.Finite? <==> r.Finite?
    ensures a.NaN? <==> r.NaN?
  {
    match a
    case Finite(x) => Finite(-x)
    case NaN => NaN
    case PosInf => NegInf
    case NegInf => PosInf
  }

  /** IEEE addition: NaN absorbs, opposite infinities give NaN. */
  function Add(a: Value, b: Value): (r: Value)
    ensures r.Finite? <==> a.Finite? && b.Finite?
    ensures a.Finite? && b.Finite? ==> r.r == a.r + b.r
    ensures (a.NaN? || b.NaN?) ==> r.NaN?
  {
    match (a, b)
    case (Finite(x), Finite(y)) => Finite(x + y)
    case (NaN, _) => NaN
    case (_, NaN) => NaN
    case (PosInf, NegInf) => NaN
    case (NegInf, PosInf) => NaN
    case (PosInf, _) => PosInf
    case (NegInf, _) => NegInf
    case (Finite(_), _) => b
  }

  function Sub(a: Value, b: Value): (r: Value)
    ensures r.Finite? <==> a.Finite? && b.Finite?
    ensures a.Finite? && b.Finite? ==> r.r == a.r - b.r
  {
    Add(a, Neg(b))
  }

  /** The infinity with the sign of `x` (`x != 0`). */
  function SignedInf(positive: bool): Value { if positive then PosInf else NegInf }

  /** IEEE multiplication: an infinity times zero is NaN. Zero is taken to be +0. */
  function Mul(a: Value, b: Value): (r: Value)
    ensures r.Finite? <==> a.Finite? && b.Finite?
    ensures a.Finite? && b.Finite? ==> r.r == a.r * b.r
  {
    match (a, b)
    case (Finite(x), Finite(y)) => Finite(x * y)
    case (NaN, _) => NaN
    case (_, NaN) => NaN
    case (Finite(x), _) => if x == 0.0 then NaN else SignedInf((x > 0.0) == b.PosInf?)
    case (_, Finite(y)) => if y == 0.0 then NaN else SignedInf((y > 0.0) == a.PosInf?)
    case (_, _) => SignedInf(a == b)
  }

  /** IEEE division. Zero is taken to be +0, so a nonzero number over zero is an
      infinity of the numerator's sign and 0/0 is NaN. */
  function Div(a: Value, b: Value): (r: Value)
    ensures a.Finite? && b.Finite? && b.r != 0.0 ==> r == Finite(a.r / b.r)
    ensures r.Finite? ==> a.Finite?
    ensures (a.NaN? || b.NaN?) ==> r.NaN?
  {
    match (a, b)
    case (NaN, _) => NaN
    case (_, NaN) => NaN
    case (Finite(x), Finite(y)) =>
      if y != 0.0 then Finite(x / y)
      else if x == 0.0 then NaN
      else SignedInf(x > 0.0)
    case (Finite(_), _) => Finite(0.0)
    case (_, Finite(y)) => SignedInf((y >= 0.0) == a.PosInf?)
    case (_, _) => NaN
  }

  /** `v < c` for a float `v`: false when `v` is NaN. */
  predicate LessThan(v: Value, c: real)
  {
    match v
    case Finite(x) => x < c
    case NegInf => true
    case _ => false
  }

  /** The order of the extended reals, used on values that are not NaN. */
  predicate Le(a: Value, b: Value)
    requires !a.NaN? && !b.NaN?
  {
    a.NegInf? || b.PosInf? || (a.Finite? && b.Finite? && a.r <= b.r)
  }

  function Min2(a: Value, b: Value): (r: Value)
    requires !a.NaN? && !b.NaN?
    ensures !r.NaN? && Le(r, a) && Le(r, b) && (r == a || r == b)
  {
    if Le(a, b) then a else b
  }

  function Max2(a: Value, b: Value): (r: Value)
    requires !a.NaN? && !b.NaN?
    ensures !r.NaN? && Le(a, r) && Le(b, r) && (r == a || r == b)
  {
    if Le(a, b) then b else a
  }

  /** Every element is a finite number. */
  predicate AllFinite(xs: seq<Value>)
  {
    forall i :: 0 <= i < |xs| ==> xs[i].Finite?
  }

  /** The reals behind a sequence of finite values. */
  function Reals(xs: seq<Value>): (rs: seq<real>)
    requires AllFinite(xs)
    ensures |rs| == |xs| && forall i :: 0 <= i < |xs| ==> rs[i] == xs[i].r
  {
    seq(|xs|, i requires 0 <= i < |xs| => xs[i].r)
  }

  /** Finite values of the given reals. */
  function Finites(rs: seq<real>): (xs: seq<Value>)
    ensures |xs| == |rs| && AllFinite(xs) && Reals(xs) == rs
  {
    seq(|rs|, i requires 0 <= i < |rs| => Finite(rs[i]))
  }
}
