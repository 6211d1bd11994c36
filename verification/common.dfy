/** Small failure-carrying datatypes shared by every module of the model. */
module Common {

  /** An optional value: a file that may be missing, a match that may fail. */
  datatype Option<+T> = None | Some(value: T)

  /** The outcome of an operation that the program ends with an exception. */
  datatype Result<+T, +E> = Ok(value: T) | Err(error: E)

  function Max(a: int, b: int): int
  {
    if a >= b then a else b
  }

  function Min(a: int, b: int): int
  {
    if a <= b then a else b
  }

  /** The Some values of f over xs, in order. */
  function FilterMap<T, U>(xs: seq<T>, f: T -> Option<U>): (ys: seq<U>)
    ensures |ys| <= |xs|
    ensures forall y | y in ys :: exists x | x in xs :: f(x) == Some(y)
    ensures forall x | x in xs && f(x).Some? :: f(x).value in ys
  {
    if xs == [] then []
    else
      var rest := FilterMap(xs[1..], f);
      assert forall x | x in xs[1..] :: x in xs;
      assert forall x | x in xs :: x == xs[0] || x in xs[1..];
      match f(xs[0])
      case Some(y) => [y] + rest
      case None => rest
  }
}
