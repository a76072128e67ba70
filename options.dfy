/** Optional values: a device pointer that may be null, an HTTP body that may be missing. */
module Options {

  datatype Option<+T> = None | Some(value: T)
}
