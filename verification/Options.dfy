/** A value or its absence: null pointers, output parameters not yet written, schedules that block. */
module Options {
  datatype Option<+T> = None | Some(value: T)
}
