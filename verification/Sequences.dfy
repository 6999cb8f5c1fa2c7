/** Selections: a sequence with some elements left out, the rest in order. */
module Sequences {

  ghost predicate Subsequence<T>(a: seq<T>, b: seq<T>)
    decreases |b|
  {
    || a == []
    || (b != [] && Subsequence(a, b[..|b| - 1]))
    || (b != [] && a[|a| - 1] == b[|b| - 1] && Subsequence(a[..|a| - 1], b[..|b| - 1]))
  }

  // A new last element may be left out or taken.
  lemma SubsequenceAppend<T>(a: seq<T>, b: seq<T>, t: T)
    requires Subsequence(a, b)
    ensures Subsequence(a, b + [t]) && Subsequence(a + [t], b + [t])
  {
    assert (b + [t])[..|b + [t]| - 1] == b && (a + [t])[..|a + [t]| - 1] == a;
  }

  lemma {:induction false} SubsequenceDrop<T>(x: seq<T>, t: T, y: seq<T>, b: seq<T>)
    requires Subsequence(x + [t] + y, b)
    ensures Subsequence(x + y, b)
    decreases |b|
  {
    var a, b0 := x + [t] + y, b[..|b| - 1];
    if x + y != [] {
      if Subsequence(a, b0) {
        SubsequenceDrop(x, t, y, b0);
      } else if y != [] {
        assert a[..|a| - 1] == x + [t] + y[..|y| - 1];
        SubsequenceDrop(x, t, y[..|y| - 1], b0);
        assert (x + y)[..|x + y| - 1] == x + y[..|y| - 1];
      } else {
        assert a[..|a| - 1] == x && x + y == x;
        SubsequenceAppend(x, b0, b[|b| - 1]);
        assert b0 + [b[|b| - 1]] == b;
      }
    }
  }

  // The elements of a selection stand in the whole, in the same order.
  lemma {:induction false} SubsequencePositions<T>(a: seq<T>, b: seq<T>, i: nat, j: nat) returns (k: nat, l: nat)
    requires Subsequence(a, b) && i < j < |a|
    ensures k < l < |b| && a[i] == b[k] && a[j] == b[l]
    decreases |b|
  {
    var b0 := b[..|b| - 1];
    if Subsequence(a, b0) {
      k, l := SubsequencePositions(a, b0, i, j);
    } else if j < |a| - 1 {
      k, l := SubsequencePositions(a[..|a| - 1], b0, i, j);
    } else {
      k := SubsequencePosition(a[..|a| - 1], b0, i);
      l := |b| - 1;
    }
  }

  lemma {:induction false} SubsequencePosition<T>(a: seq<T>, b: seq<T>, i: nat) returns (k: nat)
    requires Subsequence(a, b) && i < |a|
    ensures k < |b| && a[i] == b[k]
    decreases |b|
  {
    var b0 := b[..|b| - 1];
    if Subsequence(a, b0) { k := SubsequencePosition(a, b0, i); }
    else if i < |a| - 1 { k := SubsequencePosition(a[..|a| - 1], b0, i); }
    else { k := |b| - 1; }
  }
}
