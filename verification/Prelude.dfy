/** Values shared by every part of the model. */
module Prelude {

  datatype Option<+T> = None | Some(value: T)

  /** A timestamp with time zone, counted in microseconds, the resolution PostgreSQL and `datetime` share. */
  type Time = int

  function Seconds(n: int): Time { n * 1_000_000 }

  function Minutes(n: int): Time { Seconds(60 * n) }

  predicate Distinct<T(==)>(s: seq<T>) {
    forall i, j | 0 <= i < j < |s| :: s[i] != s[j]
  }
}
