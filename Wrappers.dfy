/** Option type shared by the other modules: an absent map cell, a failed
    `fopen`, a config that does not match. */
module Wrappers {

  datatype Option<+T> = None | Some(value: T)
}
