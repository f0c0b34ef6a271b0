/** The floating-point library functions the core calls (`kotlin.math.exp`,
    `sqrt` and `hypot`), taken as given functions over the reals. Nothing is
    assumed about them beyond the facts collected in `Valid`. */
module MathFns {

  datatype Math = Math(exp: real -> real, sqrt: real -> real, hypot: (real, real) -> real)
  {
    /** The only facts the proofs use about the three library functions. */
    ghost predicate Valid() {
      && (forall x :: exp(x) > 0.0)
      && exp(0.0) == 1.0
      && (forall x :: sqrt(x) >= 0.0)
      && sqrt(0.0) == 0.0
      && (forall a, b :: hypot(a, b) >= 0.0)
      && (forall a, b :: hypot(a, b) >= Abs(a) && hypot(a, b) >= Abs(b))
    }
  }

  function Abs(a: real): (r: real)
    ensures r >= 0.0 && (r == a || r == -a)
  {
    if a < 0.0 then -a else a
  }
}
