/** Option and Result: the host's `None` values and its exceptions-as-control-flow
    (`frappe.throw`) are modelled as values, never as preconditions. */
module Wrappers {

  datatype Option<+T> = None | Some(value: T)
  {
    function GetOr(default: T): T
    {
      match this
      case Some(v) => v
      case None => default
    }
  }

  /** `Err(msg)` stands for a raised validation error carrying its message. */
  datatype Result<+T> = Ok(value: T) | Err(msg: string)

  /** A hook that either returns normally or raises. */
  datatype Outcome = Pass | Fail(msg: string)

  /** Python's `flt(x)` for a possibly-null number: None becomes 0. */
  function Flt(x: Option<real>): real
  {
    x.GetOr(0.0)
  }
}
