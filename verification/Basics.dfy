/** What the other modules share. */
module Basics {
  datatype Opt<T> = None | Some(value: T)

  /** LX_PATH_MAX: the size of a path buffer, terminator included. */
  const PATH_MAX := 4096

  /** The longest file name, in bytes. */
  const NAME_MAX := 255
}
