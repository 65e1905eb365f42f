/** The elements of a list that satisfy a predicate, in order. */
module Filters {
  import opened Bytes

  function Only<T>(xs: seq<T>, p: T -> bool): seq<T> {
    if xs == [] then [] else (if p(xs[0]) then [xs[0]] else []) + Only(xs[1..], p)
  }

  lemma {:induction false} OnlySplit<T>(a: seq<T>, b: seq<T>, p: T -> bool)
    ensures Only(a + b, p) == Only(a, p) + Only(b, p)
  {
    if a == [] {
      assert a + b == b;
    } else {
      assert (a + b)[1..] == a[1..] + b && (a + b)[0] == a[0];
      OnlySplit(a[1..], b, p);
      Assoc(if p(a[0]) then [a[0]] else [], Only(a[1..], p), Only(b, p));
    }
  }

  lemma OnlyOne<T>(x: T, p: T -> bool)
    ensures Only([x], p) == if p(x) then [x] else []
  {
    assert Only([x][1..], p) == [];
  }

  lemma {:induction false} OnlyAll<T>(xs: seq<T>, p: T -> bool)
    requires forall i :: 0 <= i < |xs| ==> p(xs[i])
    ensures Only(xs, p) == xs
  {
    if xs != [] {
      OnlyAll(xs[1..], p);
    }
  }

  lemma {:induction false} OnlyNone<T>(xs: seq<T>, p: T -> bool)
    requires forall i :: 0 <= i < |xs| ==> !p(xs[i])
    ensures Only(xs, p) == []
  {
    if xs != [] {
      OnlyNone(xs[1..], p);
    }
  }
}
