/** The optional value used across the model (a C pointer that may be NULL, a diagnostic that may be absent). */
module Optional {

  datatype Option<+T> = None | Some(value: T)
}
