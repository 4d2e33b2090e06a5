/** What several of the other modules use. */
module Prelude {

  datatype Option<T> = None | Some(value: T)

  function Min(a: int, b: int): int { if b < a then b else a }
  function Max(a: int, b: int): int { if a < b then b else a }

  function RMin(a: real, b: real): real { if b < a then b else a }
  function RMax(a: real, b: real): real { if a < b then b else a }
  function RAbs(r: real): real { if r < 0.0 then -r else r }
}
