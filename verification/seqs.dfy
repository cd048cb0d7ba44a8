/** Small sequence vocabulary shared by the booking modules. */
module Seqs {

  /** No element occurs twice. */
  predicate NoDup<T(==)>(xs: seq<T>) {
    forall i, j :: 0 <= i < j < |xs| ==> xs[i] != xs[j]
  }

  /** The two sequences share no element. */
  predicate Disjoint<T(==)>(xs: seq<T>, ys: seq<T>) {
    forall x :: x in xs ==> x !in ys
  }

  /** The elements of `xs` that satisfy `keep`, in their original order
      (a Python list comprehension with an `if`, or a SQL `WHERE`). */
  function Filter<T(!new)>(xs: seq<T>, keep: T -> bool): (r: seq<T>)
    ensures |r| <= |xs|
    ensures forall x :: x in r <==> x in xs && keep(x)
  {
    if xs == [] then []
    else (if keep(xs[0]) then [xs[0]] else []) + Filter(xs[1..], keep)
  }

  /** Concatenating two duplicate-free, disjoint sequences keeps them duplicate-free. */
  lemma NoDupConcat<T>(xs: seq<T>, ys: seq<T>)
    requires NoDup(xs) && NoDup(ys) && Disjoint(xs, ys)
    ensures NoDup(xs + ys)
  {
    forall i, j | 0 <= i < j < |xs + ys|
      ensures (xs + ys)[i] != (xs + ys)[j]
    {
      if j < |xs| {
      } else if i < |xs| {
        assert (xs + ys)[i] in xs;
        assert (xs + ys)[j] in ys;
      } else {
        assert (xs + ys)[i] == ys[i - |xs|];
        assert (xs + ys)[j] == ys[j - |xs|];
      }
    }
  }

  /** A non-empty block written twice in a row repeats its first element. */
  lemma RepeatedBlockHasDup<T>(xs: seq<T>, ys: seq<T>)
    requires ys != []
    ensures !NoDup(xs + ys + ys)
  {
    var all := xs + ys + ys;
    assert all[|xs|] == ys[0];
    assert all[|xs| + |ys|] == ys[0];
  }
}
