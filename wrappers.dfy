/** The conventional Some/None datatype, standing in for a pointer that may be NULL. */
module Optional {

  datatype Option<+T> = None | Some(value: T)

}
