/** Vocabulary shared by every part of the health monitor model: optional values,
    how a call ends, system parameters and the clock. */
module Base {

  /** A moment, in whole seconds since 0001-01-01 00:00:00. Every capture time
      (`timestamp`, `detected_at`, `execution_date`) and the caller's `now` use it. */
  type Time = int

  const SecondsPerDay: int := 86400

  datatype Option<+T> = None | Some(value: T) {
    predicate IsFailure() { None? }

    function PropagateFailure<U>(): Option<U>
      requires None?
    {
      None
    }

    function Extract(): T
      requires Some?
    {
      value
    }

    function GetOr(fallback: T): T {
      if Some? then value else fallback
    }
  }

  /** An exception that escapes a call. */
  datatype Error = NameError | ValueError

  /** How a call ends: it returns a value, or an exception escapes it. */
  datatype Exit<+T> = Return(value: T) | Raise(error: Error)

  /** The text stored under a key of the system parameter table, as `float()` reads it. */
  datatype Param = Unset | Numeric(number: real) | NotNumeric

  /** `float(get_param(key, fallback))`: the stored number, the fallback when the key
      is unset, and a ValueError when the stored text is not a number. */
  function ParamAsFloat(p: Param, fallback: real): Exit<real> {
    match p
    case Unset => Return(fallback)
    case Numeric(x) => Return(x)
    case NotNumeric => Raise(ValueError)
  }

  function Min(a: int, b: int): int {
    if a <= b then a else b
  }
}
