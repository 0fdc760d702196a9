/** The optional value every module here uses for the source's `Option` and for a
    `Result` whose error carries no information. */
module Options {
  datatype Option<+T> = None | Some(value: T)
}
