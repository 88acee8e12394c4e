/** The Option type used for Python's `-1` sentinels and for the script's `exit(1)` path. */
module Wrappers {
  datatype Option<+T> = None | Some(value: T)
}
