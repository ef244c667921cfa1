/** Small vocabulary shared by all modules. */
module Common {
  datatype Option<+T> = None | Some(value: T)

  /** Object ids, compared for equality only. */
  type Oid = nat

  function Max(a: int, b: int): int { if a > b then a else b }
  function Min(a: int, b: int): int { if a < b then a else b }
  predicate Even(x: int) { x % 2 == 0 }
  function Abs(a: int): int { if a < 0 then -a else a }
}
