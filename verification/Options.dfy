/** The stock optional value, used for nullable columns and missing readings. */
module Options {
  datatype Option<+T> = None | Some(value: T)
}
