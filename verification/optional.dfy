/** The optional value used wherever the program either finds something or does not
    (a registry lookup, a first match, a template that fails to render). */
module Optional {

  datatype Option<+T> = None | Some(value: T) {

    /** The value held, or `default` when there is none. */
    function GetOr(default: T): T {
      match this
      case Some(v) => v
      case None => default
    }
  }
}
