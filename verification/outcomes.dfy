/** The result of a call into a library the model cannot see: either it
    returned a value, or it raised (any Python exception). */
module Outcomes {

  datatype Outcome<+T> = Returned(value: T) | Raised {

    /** The returned value, or `default` when the call raised */
    function GetOr(default: T): (r: T)
      ensures Returned? ==> r == value
      ensures Raised? ==> r == default
    {
      match this
      case Returned(v) => v
      case Raised => default
    }
  }
}
