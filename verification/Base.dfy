/** Vocabulary shared by the models. */
module Base {
  datatype Option<+T> = None | Some(value: T) {
    function GetOr(default: T): T {
      if Some? then value else default
    }

    // This option if it holds a value, otherwise the other one.
    function OrElse(other: Option<T>): Option<T> {
      if Some? then this else other
    }
  }

  function Min(a: int, b: int): int { if a <= b then a else b }
  function Max(a: int, b: int): int { if a <= b then b else a }
}
