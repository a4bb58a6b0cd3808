/** Optional results. */
module Options {

  datatype Option<T> = None | Some(value: T)
}
