/** Fields of the provider's JSON that may be missing or `null`. */
module Optional {

  /** Either nothing was sent, or a value was. */
  datatype Option<+T> = None | Some(value: T) {

    /** `x ?? fallback`: the value when one was sent. */
    function OrElse(fallback: T): T {
      if Some? then value else fallback
    }
  }
}
