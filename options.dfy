/** An optional value: `None` stands for Go's "not present" / error return. */
module Options {

  datatype Option<+T> = None | Some(value: T)
}
