/** The one optional-value datatype the model needs: `None` stands for a missing JSON
    field, `null`, `NaN`, or a lookup that found nothing. */
module Wrappers {

  datatype Option<+T> = None | Some(value: T) {

    /** The value held, or `default` when there is none. */
    function GetOr(default: T): T {
      match this
      case Some(v) => v
      case None => default
    }
  }
}
