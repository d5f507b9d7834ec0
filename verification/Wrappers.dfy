/** What several modules need. */
module Wrappers {
  datatype Option<+T> = None | Some(value: T)

  function Least(a: int, b: int): int { if a < b then a else b }
}
