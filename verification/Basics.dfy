/** Facts about numbers, sets and sequences that several modules use. */
module Basics {
  /** Two to the `n`. */
  function Power(n: nat): nat {
    if n == 0 then 1 else 2 * Power(n - 1)
  }

  lemma {:induction false} SubsetSize<T>(a: set<T>, b: set<T>)
    requires a <= b
    ensures |b - a| == |b| - |a|
    decreases |a|
  {
    if a == {} {
      assert b - a == b;
    } else {
      var x :| x in a;
      SubsetSize(a - {x}, b - {x});
      assert b - {x} - (a - {x}) == b - a;
    }
  }

  lemma Associates<T>(a: seq<T>, b: seq<T>, c: seq<T>)
    ensures a + (b + c) == a + b + c
  {
  }
}
