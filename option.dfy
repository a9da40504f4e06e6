/** A value that may be missing: JavaScript `null` / `undefined` versus a present value. */
module Optional {

  datatype Option<T> = None | Some(value: T)
}
