/** The optional value the splitter returns: `None` stands for the source's bare `return`. */
module Wrappers {
  datatype Option<+T> = None | Some(value: T)
}
