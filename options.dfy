/** The optional value used wherever the source yields a value or nothing (`?? 0`, an invalid date). */
module Options {

  datatype Option<T> = None | Some(value: T)
}
