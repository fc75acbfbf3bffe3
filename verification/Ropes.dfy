// Lists under construction.  A rope stands for the list it flattens to, and At
// says that a finished list holds it from some position.
module Ropes {

  datatype Rope<T> = Empty | One(item: T) | Cat(left: Rope<T>, right: Rope<T>)

  function Size<T>(r: Rope<T>): nat {
    match r
    case Empty => 0
    case One(_) => 1
    case Cat(a, b) => Size(a) + Size(b)
  }

  function Flat<T>(r: Rope<T>): (s: seq<T>)
    ensures |s| == Size(r)
  {
    match r
    case Empty => []
    case One(x) => [x]
    case Cat(a, b) => Flat(a) + Flat(b)
  }

  ghost predicate At<T>(s: seq<T>, pos: nat, r: Rope<T>) {
    pos + Size(r) <= |s| && s[pos..pos + Size(r)] == Flat(r)
  }

  lemma {:induction false} AtCat<T>(s: seq<T>, pos: nat, a: Rope<T>, b: Rope<T>)
    requires At(s, pos, Cat(a, b))
    ensures At(s, pos, a) && At(s, pos + Size(a), b)
  {
    var whole := s[pos..pos + Size(a) + Size(b)];
    assert whole[..Size(a)] == Flat(a) && whole[Size(a)..] == Flat(b);
  }

  lemma {:induction false} AtOne<T>(s: seq<T>, pos: nat, x: T)
    requires At(s, pos, One(x))
    ensures pos < |s| && s[pos] == x
  {
    assert s[pos..pos + 1][0] == x;
  }

  lemma {:induction false} AtAll<T>(r: Rope<T>)
    ensures At(Flat(r), 0, r)
  {
  }
}
