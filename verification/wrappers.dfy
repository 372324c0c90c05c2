/** What several model files share: the optional value for Python's `None`, and a few definitions. */
module Wrappers {
  datatype Option<+T> = None | Some(value: T)

  /** Seconds of a day. */
  const DAY: nat := 86400

  function Max(a: int, b: int): int { if a >= b then a else b }

  /** A column of a row after the ORM writes back a copy: it writes the values that differ from what was
      loaded, and leaves the others as they have become. */
  function Column<T(==)>(row: T, loaded: T, current: T): T {
    if current == loaded then row else current
  }
}
