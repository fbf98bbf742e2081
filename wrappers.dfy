/** Small value types shared by every module: optional values, results that
    carry the exception the source would raise, and integers extended with
    the two infinities that the source writes as float('inf'). */
module Wrappers {

  datatype Option<T> = None | Some(value: T)

  /** The Python exceptions raised by the modelled code. */
  datatype Error = IndexError | KeyError | ValueError

  datatype Result<T> = Ok(value: T) | Err(error: Error)

  /** An integer, or one of the two infinities. */
  datatype ExtInt = NegInf | Fin(n: int) | PosInf

  predicate Le(a: ExtInt, b: ExtInt)
  {
    match (a, b)
    case (NegInf, _) => true
    case (_, PosInf) => true
    case (Fin(x), Fin(y)) => x <= y
    case _ => false
  }

  predicate Lt(a: ExtInt, b: ExtInt)
  {
    Le(a, b) && a != b
  }

  function Max(a: ExtInt, b: ExtInt): (r: ExtInt)
    ensures Le(a, r) && Le(b, r)
    ensures r == a || r == b
  {
    if Le(a, b) then b else a
  }

  function Min(a: ExtInt, b: ExtInt): (r: ExtInt)
    ensures Le(r, a) && Le(r, b)
    ensures r == a || r == b
  {
    if Le(a, b) then a else b
  }
}
