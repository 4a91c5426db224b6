/** The conventional Some/None datatype, standing in for a nullable pointer or "no result". */
module Options {

  datatype Option<+T> = None | Some(value: T)
}
