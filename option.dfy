/** An optional value: `None` stands for a colour role the caller left unset (undefined or ''). */
module Optional {
  datatype Option<+T> = None | Some(value: T)
}
