/** Value types shared by the configuration, the drive record and the
    monitoring tick: optional and failing results (a C# null or a thrown
    exception), C#'s 32-bit `int`, and the `double` percentages that the
    monitor compares. */
module Base {

  datatype Option<+T> = None | Some(value: T)

  /** A computation that either yields a value or throws; `:-` propagates the
      failure the way an exception leaves the rest of a `try` block undone. */
  datatype Result<+T, +E> = Success(value: T) | Failure(error: E) {
    predicate IsFailure() { Failure? }

    function PropagateFailure<U>(): Result<U, E>
      requires Failure?
    {
      Failure(error)
    }

    function Extract(): T
      requires Success?
    {
      value
    }
  }

  const TwoTo31: int := 0x8000_0000
  const TwoTo32: int := 0x1_0000_0000

  /** C#'s `int`. */
  type Int32 = x: int | -TwoTo31 <= x < TwoTo31

  /** Unchecked 32-bit two's-complement arithmetic: the `Int32` that agrees
      with `x` modulo 2^32. */
  function Wrap32(x: int): (r: Int32)
    ensures (r - x) % TwoTo32 == 0
    ensures -TwoTo31 <= x < TwoTo31 ==> r == x
  {
    (x + TwoTo31) % TwoTo32 - TwoTo31
  }

  /** A C# `double` as this program produces it: a free-space percentage
      is `free / total * 100`, which is finite for a non-zero total, and
      otherwise positive infinity (`x / 0` with `x > 0`) or NaN (`0 / 0`).
      Rounding of finite values is not modelled. */
  datatype Percent = Finite(value: real) | PositiveInfinity | NaN

  /** The IEEE 754 `<` on doubles: every comparison with NaN is false. */
  predicate Below(a: Percent, b: Percent)
  {
    match (a, b)
    case (Finite(x), Finite(y)) => x < y
    case (Finite(_), PositiveInfinity) => true
    case _ => false
  }

  /** `percentFree < n` for an `int` n, which C# widens to a double exactly. */
  predicate BelowInt(a: Percent, n: int)
  {
    Below(a, Finite(n as real))
  }

  /** `((double)free / total) * 100`. */
  function PercentOf(free: nat, total: nat): (p: Percent)
    ensures total > 0 <==> p.Finite?
    ensures p.Finite? ==> p.value * total as real == 100.0 * free as real
    ensures p.Finite? && free <= total ==> 0.0 <= p.value <= 100.0
    ensures p == NaN <==> total == 0 && free == 0
  {
    if total > 0 then Finite((free as real / total as real) * 100.0)
    else if free > 0 then PositiveInfinity
    else NaN
  }

  /** No double is below itself, NaN included. */
  lemma BelowIrreflexive(a: Percent)
    ensures !Below(a, a)
  {
  }

  /** Nothing is below NaN and NaN is below nothing. */
  lemma NaNIncomparable(a: Percent)
    ensures !Below(a, NaN) && !Below(NaN, a)
  {
  }
}
