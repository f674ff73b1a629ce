/** The optional value used wherever the exporter's Python code either yields
    a value or raises (a failed parse, a missing payload, a failed collection). */
module Options {

  datatype Option<+T> = None | Some(value: T) {

    /** The carried value, or `default` when there is none. */
    function GetOr(default: T): T {
      match this
      case Some(v) => v
      case None => default
    }
  }
}
