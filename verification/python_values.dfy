/** Python's dynamic scalar values, as far as the parameter validators of the
    algorithms inspect them: `isinstance` checks and comparisons with zero. */
module PyValues {

  /** A value handed to `setParameters`. Anything that is not a bool, an int
      or a float (a string, a list, None, ...) is `PyOther`. Floats are reals:
      infinities and NaN are not modelled. */
  datatype PyValue = PyBool(b: bool) | PyInt(i: int) | PyFloat(f: real) | PyOther

  /** The built-in classes the validators name. */
  datatype PyType = BoolType | IntType | FloatType

  /** `isinstance(x, ts)`. In Python `bool` is a subclass of `int`, so a bool
      is an instance of `int` as well as of `bool`. */
  predicate IsInstance(x: PyValue, ts: set<PyType>) {
    match x
    case PyBool(_) => BoolType in ts || IntType in ts
    case PyInt(_) => IntType in ts
    case PyFloat(_) => FloatType in ts
    case PyOther => false
  }

  /** `isinstance(x, (int, float))` */
  predicate IsNumber(x: PyValue) {
    IsInstance(x, {IntType, FloatType})
  }

  /** `isinstance(x, int)` */
  predicate IsInt(x: PyValue) {
    IsInstance(x, {IntType})
  }

  /** The numeric value Python arithmetic and comparisons see (`True == 1`). */
  function AsReal(x: PyValue): real
    requires IsNumber(x)
  {
    match x
    case PyBool(b) => if b then 1.0 else 0.0
    case PyInt(i) => i as real
    case PyFloat(f) => f
  }

  /** The integer value of an int (or bool). */
  function AsInt(x: PyValue): int
    requires IsInt(x)
  {
    match x
    case PyBool(b) => if b then 1 else 0
    case PyInt(i) => i
  }

  /** `isinstance(x, (int, float)) and x > 0`, the shape shared by most
      validators of both algorithms. */
  predicate IsPositiveNumber(x: PyValue) {
    IsNumber(x) && AsReal(x) > 0.0
  }
}
