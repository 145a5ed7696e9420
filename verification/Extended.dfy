/** Reals with the special values the code branches on, and exponentials by their laws. */
module Extended {
  datatype Ext = NaN | NegInf | PosInf | Fin(value: real)

  function Sub(a: Ext, b: Ext): Ext {
    match (a, b)
    case (Fin(x), Fin(y)) => Fin(x - y)
    case (Fin(_), NegInf) => PosInf
    case (Fin(_), PosInf) => NegInf
    case (PosInf, Fin(_)) => PosInf
    case (PosInf, NegInf) => PosInf
    case (NegInf, Fin(_)) => NegInf
    case (NegInf, PosInf) => NegInf
    case _ => NaN
  }

  function Add(a: Ext, b: Ext): Ext {
    match (a, b)
    case (Fin(x), Fin(y)) => Fin(x + y)
    case (Fin(_), NegInf) => NegInf
    case (NegInf, Fin(_)) => NegInf
    case (NegInf, NegInf) => NegInf
    case (Fin(_), PosInf) => PosInf
    case (PosInf, Fin(_)) => PosInf
    case (PosInf, PosInf) => PosInf
    case _ => NaN
  }

  /** An infinity times a finite factor. */
  function Infinite(positive: bool, factor: real): Ext {
    if factor == 0.0 then NaN
    else if (factor > 0.0) == positive then PosInf
    else NegInf
  }

  function Mul(a: Ext, b: Ext): Ext {
    match (a, b)
    case (NaN, _) => NaN
    case (_, NaN) => NaN
    case (Fin(x), Fin(y)) => Fin(x * y)
    case (Fin(x), PosInf) => Infinite(true, x)
    case (Fin(x), NegInf) => Infinite(false, x)
    case (PosInf, Fin(y)) => Infinite(true, y)
    case (NegInf, Fin(y)) => Infinite(false, y)
    case (PosInf, PosInf) => PosInf
    case (NegInf, NegInf) => PosInf
    case _ => NegInf
  }

  /** Division; a zero divisor counts as positive. */
  function Div(a: Ext, b: Ext): Ext {
    match (a, b)
    case (NaN, _) => NaN
    case (_, NaN) => NaN
    case (Fin(x), Fin(y)) => if y != 0.0 then Fin(x / y) else if x == 0.0 then NaN else if x > 0.0 then PosInf
        else NegInf
    case (Fin(_), _) => Fin(0.0)
    case (PosInf, Fin(y)) => if y >= 0.0 then PosInf else NegInf
    case (NegInf, Fin(y)) => if y >= 0.0 then NegInf else PosInf
    case _ => NaN
  }

  /** Maximum where neither side is NaN; a NaN is passed on. */
  function Max(a: Ext, b: Ext): Ext {
    match (a, b)
    case (NaN, _) => NaN
    case (_, NaN) => NaN
    case (PosInf, _) => PosInf
    case (_, PosInf) => PosInf
    case (NegInf, _) => b
    case (_, NegInf) => a
    case (Fin(x), Fin(y)) => if x >= y then a else b
  }

  /** One exponential and its logarithm: base e or base 2. */
  datatype Base = Base(exp: real -> real, log: real -> real) {
    predicate TurnsSums(x: real, y: real) {
      exp(x + y) == exp(x) * exp(y)
    }

    predicate IsInverse(x: real) {
      exp(x) > 0.0 && log(exp(x)) == x && (x > 0.0 ==> exp(log(x)) == x)
    }

    ghost predicate Lawful() {
      && (forall x :: IsInverse(x))
      && (forall x, y :: TurnsSums(x, y))
    }

    function Exp(a: Ext): Ext {
      match a
      case NaN => NaN
      case NegInf => Fin(0.0)
      case PosInf => PosInf
      case Fin(x) => Fin(exp(x))
    }

    function Log(a: Ext): Ext {
      match a
      case NaN => NaN
      case NegInf => NaN
      case PosInf => PosInf
      case Fin(x) => if x > 0.0 then Fin(log(x)) else if x == 0.0 then NegInf else NaN
    }
  }

  /** The special cases of IEEE 754 (sections 6.1, 7.2 and 7.3), a zero taken as positive. */
  lemma SpecialCases(x: real)
    ensures Sub(PosInf, PosInf) == Sub(NegInf, NegInf) == Add(PosInf, NegInf) == Add(NegInf, PosInf) == NaN
    ensures Mul(Fin(0.0), PosInf) == Mul(NegInf, Fin(0.0)) == NaN
    ensures x > 0.0 ==> Mul(Fin(x), NegInf) == Mul(NegInf, Fin(x)) == NegInf
                        && Mul(PosInf, Fin(x)) == Mul(Fin(x), PosInf) == PosInf
    ensures x < 0.0 ==> Mul(Fin(x), PosInf) == Mul(PosInf, Fin(x)) == NegInf
                        && Mul(Fin(x), NegInf) == Mul(NegInf, Fin(x)) == PosInf
    ensures Mul(PosInf, PosInf) == Mul(NegInf, NegInf) == PosInf && Mul(PosInf, NegInf) == Mul(NegInf, PosInf) == NegInf
    ensures Div(Fin(0.0), Fin(0.0)) == Div(PosInf, NegInf) == Div(NegInf, PosInf) == NaN
    ensures x > 0.0 ==> Div(Fin(x), Fin(0.0)) == PosInf && Div(Fin(-x), Fin(0.0)) == NegInf
                        && Div(PosInf, Fin(x)) == PosInf && Div(NegInf, Fin(x)) == NegInf
                        && Div(PosInf, Fin(-x)) == NegInf && Div(NegInf, Fin(-x)) == PosInf
    ensures Div(Fin(x), PosInf) == Div(Fin(x), NegInf) == Fin(0.0)
    ensures Div(PosInf, Fin(0.0)) == PosInf && Div(NegInf, Fin(0.0)) == NegInf
  {
  }

  /** A logarithm of zero is minus infinity, of anything below not a number. */
  lemma SpecialLogs(base: Base, x: real)
    ensures base.Log(Fin(0.0)) == NegInf && base.Log(PosInf) == PosInf && base.Log(NegInf) == NaN
    ensures x < 0.0 ==> base.Log(Fin(x)) == NaN
    ensures base.Lawful() ==> base.Log(base.Exp(Fin(x))) == Fin(x)
  {
    assert base.Lawful() ==> base.IsInverse(x);
  }

  /** `(a * b) / b` */
  lemma Cancel(a: real, b: real, c: real)
    requires b != 0.0 && a * b == c
    ensures a == c / b
  {
  }

  /** A difference of logarithms is the logarithm of a quotient. */
  lemma ExpDiff(base: Base, a: real, m: real)
    requires base.Lawful() && a > 0.0
    ensures base.exp(m) > 0.0 && base.exp(base.log(a) - m) == a / base.exp(m)
  {
    assert base.IsInverse(m) && base.IsInverse(a) && base.TurnsSums(base.log(a) - m, m);
    assert base.log(a) - m + m == base.log(a);
    Cancel(base.exp(base.log(a) - m), base.exp(m), a);
  }

  lemma Positive(a: real, b: real)
    requires a > 0.0 && b > 0.0
    ensures a / b > 0.0
  {
  }

  lemma ExpPositive(base: Base, x: real)
    requires base.Lawful()
    ensures base.exp(x) > 0.0
  {
    assert base.IsInverse(x);
  }

  /** Taking a maximum out of a sum of exponentials and putting it back. */
  lemma LogShift(base: Base, a: real, m: real)
    requires base.Lawful() && a > 0.0
    ensures base.exp(m) > 0.0 && a / base.exp(m) > 0.0
    ensures base.log(a / base.exp(m)) + m == base.log(a)
  {
    assert base.IsInverse(m);
    var r := a / base.exp(m);
    Positive(a, base.exp(m));
    var x := base.log(r) + m;
    assert base.IsInverse(r) && base.TurnsSums(base.log(r), m) && base.IsInverse(x);
    assert r * base.exp(m) == a;
    assert base.exp(x) == base.exp(base.log(r)) * base.exp(m);
    assert base.exp(x) == a;
  }
}
