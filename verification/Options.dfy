/**
 A value that may be missing: what the originals write as `undefined`, `null` or a second result `false`.
 */
module Options {

  datatype Option<+T> = None | Some(value: T)
}
