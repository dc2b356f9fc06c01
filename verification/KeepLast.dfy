/**
 Keeping, for each key, only the last element of a list that has it, in the original order.
 */
module KeepLasts {

  function KeySet<T, K(==)>(key: T -> K, xs: seq<T>): set<K> {
    set i | 0 <= i < |xs| :: key(xs[i])
  }

  /** The list without the elements whose key occurs again later. */
  function KeepLast<T, K(==)>(key: T -> K, xs: seq<T>): seq<T> {
    if xs == [] then []
    else if key(xs[0]) in KeySet(key, xs[1..]) then KeepLast(key, xs[1..])
    else [xs[0]] + KeepLast(key, xs[1..])
  }

  lemma KeySetStep<T, K>(key: T -> K, xs: seq<T>)
    requires xs != []
    ensures KeySet(key, xs) == KeySet(key, xs[1..]) + {key(xs[0])}
  {
    forall k | k in KeySet(key, xs) ensures k in KeySet(key, xs[1..]) + {key(xs[0])} {
      var i :| 0 <= i < |xs| && key(xs[i]) == k;
      if i > 0 {
        assert xs[1..][i - 1] == xs[i];
      }
    }
    forall k | k in KeySet(key, xs[1..]) ensures k in KeySet(key, xs) {
      var i :| 0 <= i < |xs[1..]| && key(xs[1..][i]) == k;
      assert xs[i + 1] == xs[1..][i];
    }
  }

  /** No later element has the same key. */
  predicate LastOccurrence<T, K(==)>(key: T -> K, xs: seq<T>, i: nat)
    requires i < |xs|
  {
    forall j :: i < j < |xs| ==> key(xs[j]) != key(xs[i])
  }

  /** The positions kept. */
  function Positions<T, K(==)>(key: T -> K, xs: seq<T>, from: nat): seq<nat>
    requires from <= |xs|
    decreases |xs| - from
  {
    if from == |xs| then []
    else if LastOccurrence(key, xs, from) then [from] + Positions(key, xs, from + 1)
    else Positions(key, xs, from + 1)
  }

  predicate Within<T>(xs: seq<T>, ps: seq<nat>) {
    forall k :: 0 <= k < |ps| ==> ps[k] < |xs|
  }

  function At<T>(xs: seq<T>, ps: seq<nat>): seq<T>
    requires Within(xs, ps)
  {
    seq(|ps|, k requires 0 <= k < |ps| => xs[ps[k]])
  }

  lemma LaterKey<T, K>(key: T -> K, xs: seq<T>, from: nat)
    requires from < |xs|
    ensures key(xs[from]) in KeySet(key, xs[from+1..]) <==> !LastOccurrence(key, xs, from)
  {
    var rest := xs[from+1..];
    forall j | from < j < |xs| ensures key(xs[j]) in KeySet(key, rest) {
      assert rest[j - from - 1] == xs[j];
    }
    if key(xs[from]) in KeySet(key, rest) {
      var i :| 0 <= i < |rest| && key(rest[i]) == key(xs[from]);
      assert xs[from + 1 + i] == rest[i];
    }
  }

  predicate Ascending(ps: seq<nat>, lo: nat, hi: nat) {
    && (forall k :: 0 <= k < |ps| ==> lo <= ps[k] < hi)
    && (forall j, k :: 0 <= j < k < |ps| ==> ps[j] < ps[k])
  }

  lemma AscendingCons(p: nat, ps: seq<nat>, hi: nat)
    requires Ascending(ps, p + 1, hi) && p < hi
    ensures Ascending([p] + ps, p, hi) && Ascending(ps, p, hi)
  {
  }

  lemma {:induction false} PositionsAscend<T, K>(key: T -> K, xs: seq<T>, from: nat)
    requires from <= |xs|
    ensures Ascending(Positions(key, xs, from), from, |xs|)
    decreases |xs| - from
  {
    if from < |xs| {
      PositionsAscend(key, xs, from + 1);
      AscendingCons(from, Positions(key, xs, from + 1), |xs|);
    }
  }

  lemma {:induction false} PositionsAreLast<T, K>(key: T -> K, xs: seq<T>, from: nat, i: nat)
    requires from <= i < |xs|
    ensures i in Positions(key, xs, from) <==> LastOccurrence(key, xs, i)
    decreases |xs| - from
  {
    PositionsAscend(key, xs, from + 1);
    var ps, rest := Positions(key, xs, from), Positions(key, xs, from + 1);
    if from < i {
      PositionsAreLast(key, xs, from + 1, i);
    }
    if LastOccurrence(key, xs, from) {
      assert ps == [from] + rest;
      assert i in ps <==> i == from || i in rest;
    } else {
      assert ps == rest;
      assert i in ps <==> i in rest;
    }
  }

  lemma {:induction false} KeptAt<T, K>(key: T -> K, xs: seq<T>, from: nat)
    requires from <= |xs| && Within(xs, Positions(key, xs, from))
    ensures KeepLast(key, xs[from..]) == At(xs, Positions(key, xs, from))
    decreases |xs| - from
  {
    if from < |xs| {
      var rest, ps := xs[from..], Positions(key, xs, from + 1);
      assert rest[0] == xs[from] && rest[1..] == xs[from+1..];
      PositionsAscend(key, xs, from + 1);
      KeptAt(key, xs, from + 1);
      LaterKey(key, xs, from);
      if LastOccurrence(key, xs, from) {
        assert At(xs, [from] + ps) == [xs[from]] + At(xs, ps);
      }
    }
  }

  /** Exactly the last occurrence of each key is kept, in the original order. */
  lemma KeepLastKeepsLast<T, K>(key: T -> K, xs: seq<T>)
    ensures var ps := Positions(key, xs, 0);
            && Ascending(ps, 0, |xs|)
            && (forall i :: 0 <= i < |xs| ==> (i in ps <==> LastOccurrence(key, xs, i)))
            && Within(xs, ps)
            && KeepLast(key, xs) == At(xs, ps)
  {
    PositionsAscend(key, xs, 0);
    forall i | 0 <= i < |xs| ensures i in Positions(key, xs, 0) <==> LastOccurrence(key, xs, i) {
      PositionsAreLast(key, xs, 0, i);
    }
    KeptAt(key, xs, 0);
    assert xs[0..] == xs;
  }

  predicate DistinctKeys<T, K(==)>(key: T -> K, xs: seq<T>) {
    forall i, j :: 0 <= i < j < |xs| ==> key(xs[i]) != key(xs[j])
  }

  /** No key is lost and none is repeated. */
  lemma {:induction false} KeepLastKeys<T, K>(key: T -> K, xs: seq<T>)
    ensures KeySet(key, KeepLast(key, xs)) == KeySet(key, xs)
    ensures DistinctKeys(key, KeepLast(key, xs))
    decreases |xs|
  {
    if xs != [] {
      var rest := xs[1..];
      KeepLastKeys(key, rest);
      KeySetStep(key, xs);
      if key(xs[0]) !in KeySet(key, rest) {
        var out := [xs[0]] + KeepLast(key, rest);
        KeySetStep(key, out);
        assert out[1..] == KeepLast(key, rest);
        forall j | 0 < j < |out| ensures key(out[j]) != key(out[0]) {
          assert out[j] == KeepLast(key, rest)[j - 1];
          assert key(KeepLast(key, rest)[j - 1]) in KeySet(key, KeepLast(key, rest));
        }
      }
    }
  }

  lemma {:induction false} KeepLastDistinct<T, K>(key: T -> K, xs: seq<T>)
    requires DistinctKeys(key, xs)
    ensures KeepLast(key, xs) == xs
    decreases |xs|
  {
    if xs != [] {
      forall i | 0 <= i < |xs[1..]| ensures key(xs[1..][i]) != key(xs[0]) {
        assert xs[1..][i] == xs[i + 1];
      }
      KeepLastDistinct(key, xs[1..]);
    }
  }

  lemma KeepLastIdempotent<T, K>(key: T -> K, xs: seq<T>)
    ensures KeepLast(key, KeepLast(key, xs)) == KeepLast(key, xs)
  {
    KeepLastKeys(key, xs);
    KeepLastDistinct(key, KeepLast(key, xs));
  }

  // ----- Reversal -----

  function Reversed<T>(s: seq<T>): seq<T> {
    if s == [] then [] else Reversed(s[1..]) + [s[0]]
  }

  lemma {:induction false} ReversedAt<T>(s: seq<T>, k: nat)
    requires k < |s|
    ensures |Reversed(s)| == |s| && Reversed(s)[k] == s[|s| - 1 - k]
    decreases |s|
  {
    if |s| > 1 {
      ReversedAt(s[1..], if k < |s| - 1 then k else 0);
    }
  }

  lemma {:induction false} ReversedSnoc<T>(s: seq<T>, x: T)
    ensures Reversed(s + [x]) == [x] + Reversed(s)
    decreases |s|
  {
    if s == [] {
      assert s + [x] == [x];
    } else {
      assert (s + [x])[1..] == s[1..] + [x];
      ReversedSnoc(s[1..], x);
    }
  }
}
