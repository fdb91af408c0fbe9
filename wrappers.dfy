/** The optional value used throughout the model. `None` also stands for a
    JavaScript `undefined` option and, on numeric fields, for `NaN`. */
module Wrappers {

  datatype Option<+T> = None | Some(value: T)

  function Min(a: int, b: int): int { if a <= b then a else b }

  function Max(a: int, b: int): int { if a >= b then a else b }
}
