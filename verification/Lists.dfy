// Finite lists, last in first out.
module Lists {

  datatype List<T> = Nil | Cons(head: T, tail: List<T>)

  function Len<T>(xs: List<T>): nat {
    match xs
    case Nil => 0
    case Cons(_, rest) => 1 + Len(rest)
  }

  function Append<T>(xs: List<T>, ys: List<T>): List<T> {
    match xs
    case Nil => ys
    case Cons(x, rest) => Cons(x, Append(rest, ys))
  }

  // The elements of xs pushed one after the other on top of ys.
  function PushAll<T>(xs: List<T>, ys: List<T>): List<T> {
    match xs
    case Nil => ys
    case Cons(x, rest) => PushAll(rest, Cons(x, ys))
  }

  function Drop<T>(xs: List<T>, n: nat): List<T> {
    if n == 0 || xs.Nil? then xs else Drop(xs.tail, n - 1)
  }

  function Take<T>(xs: List<T>, n: nat): List<T> {
    if n == 0 || xs.Nil? then Nil else Cons(xs.head, Take(xs.tail, n - 1))
  }

  lemma {:induction false} AppendLen<T>(xs: List<T>, ys: List<T>)
    ensures Len(Append(xs, ys)) == Len(xs) + Len(ys)
  {
    match xs
    case Nil =>
    case Cons(_, rest) => AppendLen(rest, ys);
  }

  lemma {:induction false} PushAllLen<T>(xs: List<T>, ys: List<T>)
    ensures Len(PushAll(xs, ys)) == Len(xs) + Len(ys)
  {
    match xs
    case Nil =>
    case Cons(x, rest) => PushAllLen(rest, Cons(x, ys));
  }

  lemma {:induction false} SplitAppend<T>(xs: List<T>, ys: List<T>)
    ensures Take(Append(xs, ys), Len(xs)) == xs && Drop(Append(xs, ys), Len(xs)) == ys
  {
    match xs
    case Nil =>
    case Cons(_, rest) => SplitAppend(rest, ys);
  }
}
