/** The optional value used wherever the source works with `null`, `undefined`
    or `NaN` (a missing parent id, an unparseable number, an absent record). */
module Wrappers {

  datatype Option<+T> = None | Some(value: T)
}
