/** A value or nothing (base/Optional.h). */
module Optional {
  datatype Option<+T> = None | Some(value: T)
}
