/** Optional values: the `undefined` / `null` of the source. */
module Options {

  datatype Option<+T> = None | Some(value: T) {

    /** The value, or `default` when absent (the `??` operator). */
    function GetOr(default: T): T {
      match this
      case Some(v) => v
      case None => default
    }
  }

  /** What a durable-storage read yields: nothing stored, text that does
      not parse, or a parsed value. */
  datatype Stored<+T> = Missing | Corrupt | Parsed(value: T)
}
