/** Option and Result, the two Rust enums the modelled code is written against. */
module Results {

  datatype Option<+T> = None | Some(value: T)

  datatype Result<+T, +E> = Ok(value: T) | Err(error: E)

  /** Rust's `Option::transpose`: an absent value is a successful absence. */
  function Transpose<T, E>(o: Option<Result<T, E>>): (r: Result<Option<T>, E>)
    ensures r.Err? <==> o.Some? && o.value.Err?
    ensures r.Err? ==> r.error == o.value.error
    ensures r.Ok? ==> (r.value.Some? <==> o.Some?)
    ensures r.Ok? && r.value.Some? ==> o.value == Ok(r.value.value)
  {
    match o
    case None => Ok(None)
    case Some(Ok(v)) => Ok(Some(v))
    case Some(Err(e)) => Err(e)
  }
}
