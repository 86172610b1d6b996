/** An optional value: the model's reading of a JavaScript value that may be
    `undefined` or `null`. */
module Wrappers {

  datatype Option<+T> = None | Some(value: T)

  /** A dispatch result as a sequence of calls: nothing for `None`, one call
      for `Some`. */
  function Emitted<T>(o: Option<T>): seq<T>
  {
    match o
    case None => []
    case Some(v) => [v]
  }
}
