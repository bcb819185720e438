/**
 `sort_values(by=["name_compounds", "orig_content"], ascending=[True, False])`:
 merged rows ordered by compound name ascending, then concentration descending.
 Only the key order and the permutation are promised: the order among rows
 with equal keys, which the stable multi-column sort takes from the merge, is
 not modelled.
 */
module Sorting {
  import opened Tables
  import Lex

  /** `a` may precede `b` in the sorted table. */
  predicate KeyLe(a: Joined, b: Joined)
  {
    || Lex.Less(a.compound.name, b.compound.name)
    || (a.compound.name == b.compound.name && a.content.origContent >= b.content.origContent)
  }

  /** Two rows with the same sort key: same compound, same concentration. */
  predicate SameKey(a: Joined, b: Joined)
  {
    a.compound.name == b.compound.name && a.content.origContent == b.content.origContent
  }

  /** Every row may precede every later row. */
  predicate Sorted(s: seq<Joined>)
  {
    forall i, j :: 0 <= i < j < |s| ==> KeyLe(s[i], s[j])
  }

  lemma KeyLeTransitive(a: Joined, b: Joined, c: Joined)
    requires KeyLe(a, b) && KeyLe(b, c)
    ensures KeyLe(a, c)
  {
    if Lex.Less(a.compound.name, b.compound.name) && Lex.Less(b.compound.name, c.compound.name) {
      Lex.Transitive(a.compound.name, b.compound.name, c.compound.name);
    }
  }

  lemma KeyLeTotal(a: Joined, b: Joined)
    ensures KeyLe(a, b) || KeyLe(b, a)
  {
    Lex.Total(a.compound.name, b.compound.name);
  }

  /** Between two rows of one compound, a sorted table holds only rows of that compound. */
  lemma NameSqueeze(a: Joined, b: Joined, c: Joined)
    requires KeyLe(a, b) && KeyLe(b, c) && a.compound.name == c.compound.name
    ensures b.compound.name == a.compound.name
  {
    Lex.Asymmetric(a.compound.name, b.compound.name);
  }

  /** Within one compound the order is by descending concentration. */
  lemma KeyLeSameName(a: Joined, b: Joined)
    requires KeyLe(a, b) && a.compound.name == b.compound.name
    ensures a.content.origContent >= b.content.origContent
  {
    Lex.Irreflexive(a.compound.name);
  }

  /** A row that may precede every row of a sorted table may be put in front of it. */
  lemma SortedCons(x: Joined, s: seq<Joined>)
    requires Sorted(s)
    requires forall k :: 0 <= k < |s| ==> KeyLe(x, s[k])
    ensures Sorted([x] + s)
  {
    forall i, j | 0 <= i < j < |[x] + s| ensures KeyLe(([x] + s)[i], ([x] + s)[j]) {
      assert ([x] + s)[j] == s[j - 1];
      if i > 0 {
        assert ([x] + s)[i] == s[i - 1];
      }
    }
  }

  /** The head of a sorted table may precede every row of its tail with one more row inserted after it. */
  lemma HeadPrecedes(x: Joined, s: seq<Joined>, rest: seq<Joined>)
    requires Sorted(s) && |s| > 0 && KeyLe(s[0], x)
    requires multiset(rest) == multiset(s[1..]) + multiset{x}
    ensures forall k :: 0 <= k < |rest| ==> KeyLe(s[0], rest[k])
  {
    forall k | 0 <= k < |rest| ensures KeyLe(s[0], rest[k]) {
      assert rest[k] in multiset(rest);
      if rest[k] != x {
        assert rest[k] in multiset(s[1..]);
        var m :| 0 <= m < |s[1..]| && s[1..][m] == rest[k];
        assert s[1..][m] == s[m + 1];
      }
    }
  }

  /** Inserts `x` into the sorted `s`. */
  function Insert(x: Joined, s: seq<Joined>): (r: seq<Joined>)
    requires Sorted(s)
    ensures Sorted(r)
    ensures multiset(r) == multiset(s) + multiset{x}
  {
    if |s| == 0 then
      [x]
    else if KeyLe(x, s[0]) then
      assert forall j :: 0 <= j < |s| ==> KeyLe(x, s[j]) by {
        forall j | 0 < j < |s| ensures KeyLe(x, s[j]) {
          KeyLeTransitive(x, s[0], s[j]);
        }
      }
      SortedCons(x, s);
      assert s == [s[0]] + s[1..];
      [x] + s
    else
      var rest := Insert(x, s[1..]);
      KeyLeTotal(x, s[0]);
      assert s == [s[0]] + s[1..];
      HeadPrecedes(x, s, rest);
      SortedCons(s[0], rest);
      [s[0]] + rest
  }

  /** Insertion sort by the key order; the result is a sorted permutation of the input. */
  function SortRows(s: seq<Joined>): (r: seq<Joined>)
    ensures Sorted(r)
    ensures multiset(r) == multiset(s)
    ensures |r| == |s|
  {
    if |s| == 0 then
      []
    else
      assert s == [s[0]] + s[1..];
      var r := Insert(s[0], SortRows(s[1..]));
      assert |r| == |multiset(r)| == |s|;
      r
  }
}
