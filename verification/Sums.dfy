/** Sums over the keys of a finite map. */
module Sums {

  /** The sum of `w` over a set, taken in whatever order. */
  ghost function Sum<K(!new)>(ks: set<K>, w: K -> nat): nat {
    if ks == {} then 0
    else
      var k :| k in ks;
      w(k) + Sum(ks - {k}, w)
  }

  /** Any element may be taken out first. */
  lemma {:induction false} SumOut<K(!new)>(ks: set<K>, w: K -> nat, k: K)
    requires k in ks
    ensures Sum(ks, w) == w(k) + Sum(ks - {k}, w)
  {
    var j :| j in ks && Sum(ks, w) == w(j) + Sum(ks - {j}, w);
    if j != k {
      SumOut(ks - {j}, w, k);
      SumOut(ks - {k}, w, j);
      assert (ks - {j}) - {k} == (ks - {k}) - {j};
    }
  }

  lemma {:induction false} SumAgree<K(!new)>(ks: set<K>, v: K -> nat, w: K -> nat)
    requires forall k :: k in ks ==> v(k) == w(k)
    ensures Sum(ks, v) == Sum(ks, w)
  {
    if ks != {} {
      var k :| k in ks;
      SumOut(ks, v, k);
      SumOut(ks, w, k);
      SumAgree(ks - {k}, v, w);
    }
  }

  lemma Readd<K>(ks: set<K>, k: K)
    ensures (ks + {k}) - {k} == ks - {k}
    ensures k !in ks ==> ks - {k} == ks
  {
  }

  /** Changing the weight of one key, present or not, changes the sum by the difference. */
  lemma SumChange<K(!new)>(ks: set<K>, v: K -> nat, w: K -> nat, k: K)
    requires forall j :: j in ks && j != k ==> v(j) == w(j)
    ensures Sum(ks + {k}, w) == Sum(ks - {k}, v) + w(k)
    ensures Sum(ks, v) == Sum(ks - {k}, v) + if k in ks then v(k) else 0
  {
    SumOut(ks + {k}, w, k);
    Readd(ks, k);
    SumAgree(ks - {k}, v, w);
    if k in ks {
      SumOut(ks, v, k);
    }
  }

  lemma {:induction false} SumBound<K(!new)>(ks: set<K>, w: K -> nat, b: nat)
    requires forall k :: k in ks ==> w(k) <= b
    ensures Sum(ks, w) <= |ks| * b
  {
    if ks != {} {
      var k :| k in ks;
      SumOut(ks, w, k);
      SumBound(ks - {k}, w, b);
      OneMoreTime(|ks - {k}|, b);
      assert |ks| == |ks - {k}| + 1;
    }
  }

  lemma OneMoreTime(n: nat, b: nat)
    ensures (n + 1) * b == n * b + b
  {
  }

  lemma {:induction false} SumSplit<K(!new)>(ks: set<K>, u: K -> nat, v: K -> nat, w: K -> nat)
    requires forall k :: k in ks ==> u(k) == v(k) + w(k)
    ensures Sum(ks, u) == Sum(ks, v) + Sum(ks, w)
  {
    if ks != {} {
      var k :| k in ks;
      SumOut(ks, u, k);
      SumOut(ks, v, k);
      SumOut(ks, w, k);
      SumSplit(ks - {k}, u, v, w);
    }
  }

  /** Over a list without repetitions. */
  ghost function SumSeq<K>(xs: seq<K>, w: K -> nat): nat {
    if xs == [] then 0 else w(xs[0]) + SumSeq(xs[1..], w)
  }

  ghost predicate NoRepeats<K>(xs: seq<K>) {
    forall i, j :: 0 <= i < j < |xs| ==> xs[i] != xs[j]
  }

  lemma {:induction false} SumListed<K(!new)>(xs: seq<K>, ks: set<K>, w: K -> nat)
    requires NoRepeats(xs) && (forall k :: k in xs <==> k in ks)
    ensures SumSeq(xs, w) == Sum(ks, w) && |xs| == |ks|
  {
    if xs == [] {
      assert ks == {};
    } else {
      var k := xs[0];
      assert k in xs;
      SumOut(ks, w, k);
      assert xs == [k] + xs[1..];
      assert k !in xs[1..];
      SumListed(xs[1..], ks - {k}, w);
    }
  }
}
