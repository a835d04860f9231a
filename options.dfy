// The optional value returned by the locator (Python's Optional[str]) and read
// from the environment (os.getenv returns None for an unset variable).
module Options {

  datatype Option<+T> = None | Some(value: T)
}
