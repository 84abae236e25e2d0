/** A value that may be absent: the source's null and undefined. */
module Options {
  datatype Option<+T> = None | Some(value: T)

  /** v ?? default */
  function Or<T>(v: Option<T>, default: T): T { if v.Some? then v.value else default }
}
