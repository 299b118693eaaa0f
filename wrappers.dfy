/** The optional values of the post index: a front-matter field that may be
    absent, a module the loader may have failed to load, a lookup that may miss. */
module Wrappers {

  datatype Option<+T> = None | Some(value: T)
}
