/**
 Order-preserving filtering and counting over sequences: the row-selection
 primitive behind every boolean-mask selection of the pipeline
 (`df[df[col] == x]`, `df[df[col].isin(xs)]`, `df[df[col] <= n]`).
 */
module Seqs {

  /** Number of elements of `s` that satisfy `p`. */
  function CountIf<T>(s: seq<T>, p: T -> bool): (n: nat)
    ensures n <= |s|
  {
    if |s| == 0 then 0 else (if p(s[0]) then 1 else 0) + CountIf(s[1..], p)
  }

  /** The elements of `s` that satisfy `p`, in their original order. */
  function Filter<T(!new)>(s: seq<T>, p: T -> bool): (r: seq<T>)
    ensures |r| <= |s|
    ensures forall x :: x in r <==> x in s && p(x)
  {
    if |s| == 0 then [] else (if p(s[0]) then [s[0]] else []) + Filter(s[1..], p)
  }

  /** Filtering commutes with concatenation: the relative order of kept rows is the input order. */
  lemma {:induction false} FilterAppend<T(!new)>(a: seq<T>, b: seq<T>, p: T -> bool)
    ensures Filter(a + b, p) == Filter(a, p) + Filter(b, p)
  {
    if |a| == 0 {
      assert a + b == b;
    } else {
      assert (a + b)[0] == a[0];
      assert (a + b)[1..] == a[1..] + b;
      FilterAppend(a[1..], b, p);
    }
  }

  /** The filtered sequence has exactly as many elements as satisfy the predicate. */
  lemma {:induction false} FilterLength<T(!new)>(s: seq<T>, p: T -> bool)
    ensures |Filter(s, p)| == CountIf(s, p)
  {
    if |s| > 0 {
      FilterLength(s[1..], p);
    }
  }

  /** Filtering returns its input unchanged exactly when every element passes. */
  lemma {:induction false} FilterIdentity<T(!new)>(s: seq<T>, p: T -> bool)
    ensures Filter(s, p) == s <==> forall i :: 0 <= i < |s| ==> p(s[i])
  {
    if |s| > 0 {
      FilterIdentity(s[1..], p);
      if Filter(s, p) == s {
        assert s[0] in Filter(s, p);
        if !p(s[0]) {
          assert false;
        }
        assert Filter(s[1..], p) == s[1..];
        forall i | 0 <= i < |s| ensures p(s[i]) {
          if i > 0 {
            assert s[i] == s[1..][i - 1];
          }
        }
      }
      if forall i :: 0 <= i < |s| ==> p(s[i]) {
        assert forall i :: 0 <= i < |s[1..]| ==> p(s[1..][i]) by {
          forall i | 0 <= i < |s[1..]| ensures p(s[1..][i]) {
            assert s[1..][i] == s[i + 1];
          }
        }
        assert p(s[0]);
      }
    }
  }

  /** Filtering twice with the same predicate is filtering once. */
  lemma FilterIdempotent<T(!new)>(s: seq<T>, p: T -> bool)
    ensures Filter(Filter(s, p), p) == Filter(s, p)
  {
    var r := Filter(s, p);
    assert forall i :: 0 <= i < |r| ==> p(r[i]) by {
      forall i | 0 <= i < |r| ensures p(r[i]) {
        assert r[i] in r;
      }
    }
    FilterIdentity(r, p);
  }

  /** Counting distributes over concatenation. */
  lemma {:induction false} CountIfAppend<T>(a: seq<T>, b: seq<T>, p: T -> bool)
    ensures CountIf(a + b, p) == CountIf(a, p) + CountIf(b, p)
  {
    if |a| == 0 {
      assert a + b == b;
    } else {
      assert (a + b)[0] == a[0];
      assert (a + b)[1..] == a[1..] + b;
      CountIfAppend(a[1..], b, p);
    }
  }

  /** A count depends only on the multiset of elements, not on their order. */
  lemma {:induction false} CountIfPermutation<T>(s: seq<T>, t: seq<T>, p: T -> bool)
    requires multiset(s) == multiset(t)
    ensures CountIf(s, p) == CountIf(t, p)
  {
    if |s| == 0 {
      assert |t| == |multiset(t)| == 0;
    } else {
      assert s[0] in multiset(t);
      var j :| 0 <= j < |t| && t[j] == s[0];
      var a, b := t[..j], t[j + 1..];
      RemoveMatching(s, t, j);
      CountIfPermutation(s[1..], a + b, p);
      assert t == a + [t[j]] + b;
      CountIfRemove(a, t[j], b, p);
      assert s == [s[0]] + s[1..];
      CountIfAppend([s[0]], s[1..], p);
    }
  }

  /** Dropping the head of `s` and its match in `t` keeps the two permutations of each other. */
  lemma RemoveMatching<T>(s: seq<T>, t: seq<T>, j: int)
    requires multiset(s) == multiset(t)
    requires |s| > 0 && 0 <= j < |t| && t[j] == s[0]
    ensures multiset(s[1..]) == multiset(t[..j] + t[j + 1..])
  {
    assert t == t[..j] + [t[j]] + t[j + 1..];
    assert s == [s[0]] + s[1..];
    assert multiset(t) == multiset(t[..j]) + multiset{t[j]} + multiset(t[j + 1..]);
    assert multiset(t[..j] + t[j + 1..]) == multiset(t) - multiset{t[j]};
    assert multiset(s[1..]) == multiset(s) - multiset{s[0]};
  }

  /** Taking `x` out from between `a` and `b` takes away its contribution to the count. */
  lemma CountIfRemove<T>(a: seq<T>, x: T, b: seq<T>, p: T -> bool)
    ensures CountIf(a + [x] + b, p) == CountIf(a + b, p) + CountIf([x], p)
  {
    CountIfAppend(a + [x], b, p);
    CountIfAppend(a, [x], p);
    CountIfAppend(a, b, p);
  }

  /** When the elements satisfying `p` are exactly those at positions `lo..hi-1`, there are `hi - lo` of them. */
  lemma {:induction false} CountIfInterval<T>(s: seq<T>, p: T -> bool, lo: int, hi: int)
    requires 0 <= lo <= hi <= |s|
    requires forall k :: 0 <= k < |s| ==> (p(s[k]) <==> lo <= k < hi)
    ensures CountIf(s, p) == hi - lo
  {
    if |s| > 0 {
      forall k | 0 <= k < |s[1..]|
        ensures p(s[1..][k]) <==> lo - 1 <= k < hi - 1
      {
        assert s[1..][k] == s[k + 1];
      }
      if lo == 0 && hi > 0 {
        CountIfInterval(s[1..], p, 0, hi - 1);
      } else if lo == 0 {
        CountIfInterval(s[1..], p, 0, 0);
      } else {
        CountIfInterval(s[1..], p, lo - 1, hi - 1);
      }
    }
  }

  /** When every element satisfying `p` sits at a position in `lo..hi-1`, at most `hi - lo` do. */
  lemma {:induction false} CountIfWithin<T>(s: seq<T>, p: T -> bool, lo: int, hi: int)
    requires 0 <= lo <= hi
    requires forall k :: 0 <= k < |s| && p(s[k]) ==> lo <= k < hi
    ensures CountIf(s, p) <= hi - lo
  {
    if |s| > 0 {
      forall k | 0 <= k < |s[1..]| && p(s[1..][k])
        ensures (if lo == 0 then 0 else lo - 1) <= k < (if hi == 0 then 0 else hi - 1)
      {
        assert s[1..][k] == s[k + 1];
      }
      if hi == 0 {
        CountIfWithin(s[1..], p, 0, 0);
        assert !p(s[0]);
      } else if lo == 0 {
        CountIfWithin(s[1..], p, 0, hi - 1);
      } else {
        CountIfWithin(s[1..], p, lo - 1, hi - 1);
        assert !p(s[0]);
      }
    }
  }

  /** A count grows with its predicate. */
  lemma {:induction false} CountIfMonotone<T>(s: seq<T>, p: T -> bool, q: T -> bool)
    requires forall i :: 0 <= i < |s| && p(s[i]) ==> q(s[i])
    ensures CountIf(s, p) <= CountIf(s, q)
  {
    if |s| > 0 {
      assert forall i :: 0 <= i < |s[1..]| && p(s[1..][i]) ==> q(s[1..][i]) by {
        forall i | 0 <= i < |s[1..]| && p(s[1..][i]) ensures q(s[1..][i]) {
          assert s[1..][i] == s[i + 1];
        }
      }
      CountIfMonotone(s[1..], p, q);
    }
  }

  /** An element satisfying `p` but not `q` makes the count of `p` strictly larger, when `q` implies `p`. */
  lemma {:induction false} CountIfStrict<T>(s: seq<T>, p: T -> bool, q: T -> bool, j: int)
    requires forall i :: 0 <= i < |s| && q(s[i]) ==> p(s[i])
    requires 0 <= j < |s| && p(s[j]) && !q(s[j])
    ensures CountIf(s, q) < CountIf(s, p)
  {
    assert forall i :: 0 <= i < |s[1..]| && q(s[1..][i]) ==> p(s[1..][i]) by {
      forall i | 0 <= i < |s[1..]| && q(s[1..][i]) ensures p(s[1..][i]) {
        assert s[1..][i] == s[i + 1];
      }
    }
    if j == 0 {
      CountIfMonotone(s[1..], q, p);
    } else {
      assert s[1..][j - 1] == s[j];
      CountIfStrict(s[1..], p, q, j - 1);
    }
  }

  /** Counting within a filtered sequence is counting the conjunction over the original. */
  lemma {:induction false} CountIfFilter<T(!new)>(s: seq<T>, p: T -> bool, q: T -> bool, pq: T -> bool)
    requires forall i :: 0 <= i < |s| ==> (pq(s[i]) <==> p(s[i]) && q(s[i]))
    ensures CountIf(Filter(s, p), q) == CountIf(s, pq)
  {
    if |s| > 0 {
      assert forall i :: 0 <= i < |s[1..]| ==> (pq(s[1..][i]) <==> p(s[1..][i]) && q(s[1..][i])) by {
        forall i | 0 <= i < |s[1..]| ensures pq(s[1..][i]) <==> p(s[1..][i]) && q(s[1..][i]) {
          assert s[1..][i] == s[i + 1];
        }
      }
      CountIfFilter(s[1..], p, q, pq);
      CountIfAppend(if p(s[0]) then [s[0]] else [], Filter(s[1..], p), q);
    }
  }

  /** When `p` holds exactly where `q` does plus at one further position, `p` counts one more. */
  lemma {:induction false} CountIfPlusOne<T>(s: seq<T>, p: T -> bool, q: T -> bool, j: int)
    requires 0 <= j < |s| && !q(s[j])
    requires forall k :: 0 <= k < |s| ==> (p(s[k]) <==> q(s[k]) || k == j)
    ensures CountIf(s, p) == CountIf(s, q) + 1
  {
    assert forall k :: 0 <= k < |s[1..]| && j != 0 ==> (p(s[1..][k]) <==> q(s[1..][k]) || k == j - 1) by {
      forall k | 0 <= k < |s[1..]| && j != 0 ensures p(s[1..][k]) <==> q(s[1..][k]) || k == j - 1 {
        assert s[1..][k] == s[k + 1];
      }
    }
    if j == 0 {
      assert forall k :: 0 <= k < |s[1..]| ==> (p(s[1..][k]) <==> q(s[1..][k])) by {
        forall k | 0 <= k < |s[1..]| ensures p(s[1..][k]) <==> q(s[1..][k]) {
          assert s[1..][k] == s[k + 1];
        }
      }
      CountIfMonotone(s[1..], p, q);
      CountIfMonotone(s[1..], q, p);
    } else {
      CountIfPlusOne(s[1..], p, q, j - 1);
    }
  }
}
