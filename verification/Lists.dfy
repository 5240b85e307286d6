/** Lists. */
module Lists {
  datatype List<+T> = Nil | Cons(head: T, tail: List<T>)

  function Length<T>(l: List<T>): nat {
    if l.Nil? then 0 else 1 + Length(l.tail)
  }

  /** The elements in order. */
  function Items<T>(l: List<T>): (s: seq<T>)
    ensures |s| == Length(l)
  {
    if l.Nil? then [] else [l.head] + Items(l.tail)
  }

  function Append<T>(a: List<T>, b: List<T>): List<T> {
    if a.Nil? then b else Cons(a.head, Append(a.tail, b))
  }
}
