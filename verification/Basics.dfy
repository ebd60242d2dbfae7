// Option type and the small helpers shared by every module.
module Basics {
  datatype Option<+T> = None | Some(value: T) {
    predicate IsFailure() { None? }

    function PropagateFailure<U>(): Option<U>
      requires None?
    {
      None
    }

    function Extract(): T
      requires Some?
    {
      value
    }
  }

  // n, m and y, represented as 0, 1 and 2.
  type Tri = t: int | 0 <= t <= 2

  function Min(a: int, b: int): int { if a <= b then a else b }

  function Max(a: int, b: int): int { if a >= b then a else b }

  function TriStr(t: Tri): string { if t == 0 then "n" else if t == 1 then "m" else "y" }

  // "b knows at least what a knows".
  predicate Refines<T(==)>(a: Option<T>, b: Option<T>) { a.Some? ==> b == a }

  lemma {:induction false} Regroup<T>(a: seq<T>, b: seq<T>, c: seq<T>)
    ensures a + b + c == a + (b + c)
  {
  }
}
