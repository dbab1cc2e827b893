/** Runtime vocabulary shared by the whole model: nullable values, the
    exceptions the modelled Kotlin code can raise, and the integer
    conversions whose rounding differs from Dafny's built-in operators. */
module Base {

  /** A Kotlin nullable value. */
  datatype Option<+T> = None | Some(value: T)

  /** The exceptions the modelled code can raise; each one ends the
      operation that raised it. */
  datatype Fault =
    | IndexOutOfBounds    // array or list index past the end
    | NegativeArraySize   // an array allocated with a negative length
    | NoSuchElement       // first() on an empty list
    | IllegalArgument     // coerceIn with an empty range
    | EmptyResize         // OpenCV asked to resize an image to an empty size
    | InferenceFailed     // the interpreter rejected its input or output

  /** The outcome of a call that either returns a value or throws. */
  datatype Result<+T> = Success(value: T) | Failure(fault: Fault)
  {
    /** What a `try { ... } catch { null }` turns the outcome into. */
    function ToOption(): (o: Option<T>)
      ensures o.Some? <==> Success?
      ensures o.Some? ==> o.value == value
    {
      match this
      case Success(v) => Some(v)
      case Failure(_) => None
    }
  }

  /** Kotlin's `Double.toInt()`: rounds toward zero. (The saturation at the
      32-bit bounds is never reached by the values the model converts.) */
  function Trunc(x: real): (n: int)
    ensures 0.0 <= x ==> 0 <= n && n as real <= x < n as real + 1.0
    ensures x <= 0.0 ==> n <= 0 && n as real - 1.0 < x <= n as real
  {
    if x >= 0.0 then x.Floor else -((-x).Floor)
  }

  /** Kotlin's `a / 2` on `Int`, which truncates toward zero (Dafny's `/`
      is Euclidean and differs for negative `a`). */
  function Half(a: int): (q: int)
    ensures 0 <= a ==> 0 <= q && 0 <= a - 2 * q <= 1
    ensures a < 0 ==> q <= 0 && -1 <= a - 2 * q <= 0
  {
    if a >= 0 then a / 2 else -((-a) / 2)
  }

  /** Kotlin's `Long.coerceIn(lower, upper)`, which throws on an empty range. */
  function CoerceIn(v: int, lower: int, upper: int): (r: Result<int>)
    ensures r.Success? <==> lower <= upper
    ensures r.Success? ==> lower <= r.value <= upper
    ensures r.Success? && lower <= v <= upper ==> r.value == v
    ensures r.Success? ==> r.value == v || (v < lower && r.value == lower) || (v > upper && r.value == upper)
  {
    if lower > upper then Failure(IllegalArgument)
    else if v < lower then Success(lower)
    else if v > upper then Success(upper)
    else Success(v)
  }

  function MinReal(a: real, b: real): (m: real)
    ensures m <= a && m <= b && (m == a || m == b)
  {
    if a <= b then a else b
  }

  function MaxReal(a: real, b: real): (m: real)
    ensures m >= a && m >= b && (m == a || m == b)
  {
    if a >= b then a else b
  }
}
