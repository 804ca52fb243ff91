/** Types that several parts of the model share. */
module Wrappers {
  datatype Option<T> = None | Some(value: T)

  /** The two ways edges are recorded: while a cell runs, and from its source text. */
  datatype SlicingContext = Dynamic | Static
}
