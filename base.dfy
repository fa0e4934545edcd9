/** Shared value wrapper used by every module of the model. */
module Base {

  /** A JavaScript value that may be `null`/`undefined` (or a response that carries no data). */
  datatype Option<+T> = None | Some(value: T)
}
