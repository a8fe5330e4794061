/** What several components share. */
module Helpers {
  /** A value that may be missing; in a function, `:-` passes a missing one on. */
  datatype Option<+T> = None | Some(value: T) {
    predicate IsFailure() {
      None?
    }

    function PropagateFailure<U>(): Option<U>
      requires None?
    {
      None
    }

    function Extract(): T
      requires Some?
    {
      value
    }
  }

  lemma SomeElement<T>(s: set<T>)
    ensures s == {} || exists x :: x in s
  {
    if forall x :: x !in s {
      assert s == {};
    }
  }

  /** The same for integers, which the verifier keeps apart from values of a type parameter. */
  lemma SomeInt(s: set<int>)
    ensures s == {} || exists x :: x in s
  {
    if forall x :: x !in s {
      assert s == {};
    }
  }

  lemma Regroup<T>(a: seq<T>, b: seq<T>, c: seq<T>)
    ensures (a + b) + c == a + (b + c)
  {
  }

  lemma MulAssociate(a: int, b: int, c: int)
    ensures (a * b) * c == a * (b * c)
  {
  }

  lemma Multiples(a: nat, b: nat, n: nat)
    requires b > 0
    ensures (a + b) * n == a * n + b * n && b * n >= n
  {
    assert b * n == (b - 1) * n + n && (b - 1) * n >= 0;
  }
}
