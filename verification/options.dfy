/** An optional value: stands for a JSON field that may be missing or `null`. */
module Options {

  datatype Option<+T> = None | Some(value: T)
}
