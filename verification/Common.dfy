/** Small definitions shared by the other modules. */
module Common {

  datatype Option<T> = None | Some(value: T)

  function Max(a: int, b: int): int { if a < b then b else a }

  function Min(a: int, b: int): int { if a < b then a else b }

  /** `r` is the number between `low` and `high` that is nearest to `x`. */
  ghost predicate Nearest(x: int, low: int, high: int, r: int) {
    low <= r <= high && forall y {:trigger Distance(x, y)} :: low <= y <= high ==> Distance(x, r) <= Distance(x, y)
  }

  function Distance(x: int, y: int): nat { if x < y then y - x else x - y }
}
