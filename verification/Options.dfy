/** Optional values: nullable columns and lookups that may miss. */
module Options {
  datatype Option<+T> = None | Some(value: T)
}
