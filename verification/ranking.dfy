/**
 `groupby("name_compounds")["orig_content"].rank(ascending=False)` with the
 pandas default tie method "average": within a compound, rows are numbered
 1, 2, ... by descending concentration, and rows with equal concentration all
 receive the mean of the positions they occupy.
 */
module Ranking {
  import opened Tables
  import opened Seqs
  import opened Sorting

  /** Selects the rows of compound `name` with concentration above `v`. */
  function Above(name: string, v: real): Joined -> bool
  {
    (r: Joined) => r.compound.name == name && r.content.origContent > v
  }

  /** Selects the rows of compound `name` with concentration at least `v`. */
  function AtLeast(name: string, v: real): Joined -> bool
  {
    (r: Joined) => r.compound.name == name && r.content.origContent >= v
  }

  /** Selects the rows of compound `name`. */
  function OfCompound(name: string): Joined -> bool
  {
    (r: Joined) => r.compound.name == name
  }

  /** Number of rows of compound `name`: the size of its group. */
  function GroupSize(s: seq<Joined>, name: string): nat
  {
    CountIf(s, OfCompound(name))
  }

  /**
   Reference definition of the average rank of concentration `v` in the group of
   `name`: the tie occupies positions `above + 1 .. atLeast`, and the rank is
   the mean of the first and last of them. It depends only on which rows are
   present, not on their order.
   */
  function AverageRank(s: seq<Joined>, name: string, v: real): real
  {
    ((CountIf(s, Above(name, v)) + 1) as real + CountIf(s, AtLeast(name, v)) as real) / 2.0
  }

  /** Index of the first row of the group that row `i` belongs to (groups are contiguous in a sorted table). */
  function GroupStart(s: seq<Joined>, i: nat): (g: nat)
    requires i < |s|
    ensures g <= i
  {
    if i > 0 && s[i - 1].compound.name == s[i].compound.name then GroupStart(s, i - 1) else i
  }

  /** Index of the first row of the run of equal keys that row `i` belongs to. */
  function RunStart(s: seq<Joined>, i: nat): (b: nat)
    requires i < |s|
    ensures b <= i
  {
    if i > 0 && SameKey(s[i - 1], s[i]) then RunStart(s, i - 1) else i
  }

  /** One past the last row of the run of equal keys that row `i` belongs to. */
  function RunEnd(s: seq<Joined>, i: nat): (e: nat)
    requires i < |s|
    ensures i < e <= |s|
    decreases |s| - i
  {
    if i + 1 < |s| && SameKey(s[i + 1], s[i]) then RunEnd(s, i + 1) else i + 1
  }

  /** The group of row `i` starts after a row of another compound, and holds only its compound up to `i`. */
  lemma {:induction false} GroupStartSpec(s: seq<Joined>, i: nat)
    requires i < |s|
    ensures forall k :: GroupStart(s, i) <= k <= i ==> s[k].compound.name == s[i].compound.name
    ensures GroupStart(s, i) == 0 || s[GroupStart(s, i) - 1].compound.name != s[i].compound.name
  {
    if i > 0 && s[i - 1].compound.name == s[i].compound.name {
      GroupStartSpec(s, i - 1);
    }
  }

  /** The run of row `i` is a maximal stretch of rows with its key, starting within its group. */
  lemma {:induction false} RunStartSpec(s: seq<Joined>, i: nat)
    requires i < |s|
    ensures GroupStart(s, i) <= RunStart(s, i)
    ensures forall k :: RunStart(s, i) <= k <= i ==> SameKey(s[k], s[i])
    ensures RunStart(s, i) == 0 || !SameKey(s[RunStart(s, i) - 1], s[i])
  {
    if i > 0 && SameKey(s[i - 1], s[i]) {
      RunStartSpec(s, i - 1);
    }
  }

  /** The run of row `i` extends to the last row after it with the same key. */
  lemma {:induction false} RunEndSpec(s: seq<Joined>, i: nat)
    requires i < |s|
    ensures forall k :: i <= k < RunEnd(s, i) ==> SameKey(s[k], s[i])
    ensures RunEnd(s, i) == |s| || !SameKey(s[RunEnd(s, i)], s[i])
    decreases |s| - i
  {
    if i + 1 < |s| && SameKey(s[i + 1], s[i]) {
      RunEndSpec(s, i + 1);
    }
  }

  /**
   The rank pandas assigns to row `i` of the sorted table: the mean of the first
   and last 1-based in-group positions of its run of tied concentrations.
   */
  function PositionRank(s: seq<Joined>, i: nat): real
    requires i < |s|
  {
    var g := GroupStart(s, i);
    ((RunStart(s, i) - g + 1) + (RunEnd(s, i) - g)) as real / 2.0
  }

  /**
   In a sorted table, a tie covering the in-group positions `lo - g + 1 .. hi - g`
   has `lo - g` rows above it and `hi - g` rows at or above it, so every member
   gets the mean of those positions; an untied row at position p gets p.
   */
  lemma TieBlockRank(s: seq<Joined>, g: nat, lo: nat, hi: nat, i: nat)
    requires Sorted(s)
    requires g <= lo <= i < hi <= |s|
    requires forall k :: g <= k < hi ==> s[k].compound.name == s[i].compound.name
    requires forall k :: lo <= k < hi ==> s[k].content.origContent == s[i].content.origContent
    requires g == 0 || s[g - 1].compound.name != s[i].compound.name
    requires lo == g || s[lo - 1].content.origContent != s[i].content.origContent
    requires hi == |s| || !SameKey(s[hi], s[i])
    ensures CountIf(s, Above(s[i].compound.name, s[i].content.origContent)) == lo - g
    ensures CountIf(s, AtLeast(s[i].compound.name, s[i].content.origContent)) == hi - g
    ensures AverageRank(s, s[i].compound.name, s[i].content.origContent) == ((lo - g + 1) + (hi - g)) as real / 2.0
  {
    var n, v := s[i].compound.name, s[i].content.origContent;
    forall k | 0 <= k < |s|
      ensures (s[k].compound.name == n && s[k].content.origContent > v) <==> g <= k < lo
      ensures (s[k].compound.name == n && s[k].content.origContent >= v) <==> g <= k < hi
    {
      if k < g {
        if s[k].compound.name == n {
          NameSqueeze(s[k], s[g - 1], s[i]);
        }
      } else if k < lo {
        KeyLeSameName(s[lo - 1], s[i]);
        if k < lo - 1 {
          KeyLeSameName(s[k], s[lo - 1]);
        }
      } else if hi <= k {
        if s[k].compound.name == n {
          KeyLeSameName(s[i], s[k]);
          if k > hi {
            NameSqueeze(s[i], s[hi], s[k]);
            KeyLeSameName(s[i], s[hi]);
            KeyLeSameName(s[hi], s[k]);
          }
        }
      }
    }
    CountIfInterval(s, Above(n, v), g, lo);
    CountIfInterval(s, AtLeast(n, v), g, hi);
  }

  /** The group and the run around row `i` meet the conditions of `TieBlockRank`. */
  lemma RunIsTieBlock(s: seq<Joined>, i: nat, g: nat, lo: nat, hi: nat)
    requires i < |s| && g == GroupStart(s, i) && lo == RunStart(s, i) && hi == RunEnd(s, i)
    ensures g <= lo <= i < hi <= |s|
    ensures forall k :: g <= k < hi ==> s[k].compound.name == s[i].compound.name
    ensures forall k :: lo <= k < hi ==> s[k].content.origContent == s[i].content.origContent
    ensures g == 0 || s[g - 1].compound.name != s[i].compound.name
    ensures lo == g || s[lo - 1].content.origContent != s[i].content.origContent
    ensures hi == |s| || !SameKey(s[hi], s[i])
  {
    GroupStartSpec(s, i);
    RunStartSpec(s, i);
    RunEndSpec(s, i);
    forall k | g <= k < hi ensures s[k].compound.name == s[i].compound.name {
      if k > i {
        assert SameKey(s[k], s[i]);
      }
    }
    if lo > g {
      assert s[lo - 1].compound.name == s[i].compound.name;
    }
  }

  /** In a sorted table, the rows of the group above row `i`'s concentration are those before its run. */
  lemma RunCountAbove(s: seq<Joined>, i: nat)
    requires Sorted(s) && i < |s|
    ensures CountIf(s, Above(s[i].compound.name, s[i].content.origContent)) == RunStart(s, i) - GroupStart(s, i)
  {
    var g, lo, hi := GroupStart(s, i), RunStart(s, i), RunEnd(s, i);
    RunIsTieBlock(s, i, g, lo, hi);
    TieBlockRank(s, g, lo, hi, i);
  }

  /** In a sorted table, the rows of the group at or above row `i`'s concentration are those up to the end of its run. */
  lemma RunCountAtLeast(s: seq<Joined>, i: nat)
    requires Sorted(s) && i < |s|
    ensures CountIf(s, AtLeast(s[i].compound.name, s[i].content.origContent)) == RunEnd(s, i) - GroupStart(s, i)
  {
    var g, lo, hi := GroupStart(s, i), RunStart(s, i), RunEnd(s, i);
    RunIsTieBlock(s, i, g, lo, hi);
    TieBlockRank(s, g, lo, hi, i);
  }

  /** On a sorted table the positional rank is the reference average rank. */
  lemma PositionRankIsAverage(s: seq<Joined>, i: nat)
    requires Sorted(s) && i < |s|
    ensures PositionRank(s, i) == AverageRank(s, s[i].compound.name, s[i].content.origContent)
  {
    RunCountAbove(s, i);
    RunCountAtLeast(s, i);
  }

  /** The average rank does not depend on the order of the rows. */
  lemma AverageRankPermutation(s: seq<Joined>, t: seq<Joined>, name: string, v: real)
    requires multiset(s) == multiset(t)
    ensures AverageRank(s, name, v) == AverageRank(t, name, v)
  {
    CountIfPermutation(s, t, Above(name, v));
    CountIfPermutation(s, t, AtLeast(name, v));
  }

  /** The rank of a present row lies between 1 and the size of its group. */
  lemma AverageRankBounds(s: seq<Joined>, j: nat)
    requires j < |s|
    ensures 1.0 <= AverageRank(s, s[j].compound.name, s[j].content.origContent)
    ensures AverageRank(s, s[j].compound.name, s[j].content.origContent) <= GroupSize(s, s[j].compound.name) as real
  {
    var n, v := s[j].compound.name, s[j].content.origContent;
    CountIfStrict(s, AtLeast(n, v), Above(n, v), j);
    CountIfMonotone(s, AtLeast(n, v), OfCompound(n));
  }

  /** A higher concentration never gets a larger rank; ties share a rank. */
  lemma AverageRankMonotone(s: seq<Joined>, name: string, v: real, w: real)
    requires w <= v
    ensures AverageRank(s, name, v) <= AverageRank(s, name, w)
  {
    CountIfMonotone(s, Above(name, v), Above(name, w));
    CountIfMonotone(s, AtLeast(name, v), AtLeast(name, w));
  }

  /** A present concentration ranks strictly ahead of any lower one of the same compound. */
  lemma AverageRankStrict(s: seq<Joined>, j: nat, w: real)
    requires j < |s| && w < s[j].content.origContent
    ensures AverageRank(s, s[j].compound.name, s[j].content.origContent) < AverageRank(s, s[j].compound.name, w)
  {
    var n, v := s[j].compound.name, s[j].content.origContent;
    CountIfStrict(s, Above(n, w), Above(n, v), j);
    CountIfMonotone(s, AtLeast(n, v), AtLeast(n, w));
  }

  /** The merged rows of a ranked table. */
  function Rows(r: seq<Ranked>): (s: seq<Joined>)
    ensures |s| == |r|
    ensures forall i :: 0 <= i < |r| ==> s[i] == r[i].row
  {
    seq(|r|, i requires 0 <= i < |r| => r[i].row)
  }

  /**
   Sorts the merged table by (compound name ascending, concentration descending)
   and attaches to each row the average rank of its concentration within its
   compound, computed over the whole input.
   */
  function RankFood(merged: seq<Joined>): (r: seq<Ranked>)
    ensures |r| == |merged|
    ensures multiset(Rows(r)) == multiset(merged)
    ensures Sorted(Rows(r))
    ensures forall i :: 0 <= i < |r| ==>
      r[i].foodRank == AverageRank(merged, r[i].row.compound.name, r[i].row.content.origContent)
  {
    var s := SortRows(merged);
    var r := seq(|s|, i requires 0 <= i < |s| => Ranked(s[i], PositionRank(s, i)));
    assert Rows(r) == s;
    assert forall i :: 0 <= i < |r| ==>
      r[i].foodRank == AverageRank(merged, r[i].row.compound.name, r[i].row.content.origContent) by {
      forall i | 0 <= i < |r|
        ensures r[i].foodRank == AverageRank(merged, r[i].row.compound.name, r[i].row.content.origContent)
      {
        PositionRankIsAverage(s, i);
        AverageRankPermutation(s, merged, s[i].compound.name, s[i].content.origContent);
      }
    }
    r
  }

  /**
   Along the ranked table, within one compound, concentrations never increase
   and ranks never decrease; equal concentrations share their rank.
   */
  lemma RankFoodGroupOrder(merged: seq<Joined>, i: nat, j: nat)
    requires i < j < |RankFood(merged)|
    requires RankFood(merged)[i].row.compound.name == RankFood(merged)[j].row.compound.name
    ensures RankFood(merged)[i].row.content.origContent >= RankFood(merged)[j].row.content.origContent
    ensures RankFood(merged)[i].foodRank <= RankFood(merged)[j].foodRank
    ensures RankFood(merged)[i].row.content.origContent == RankFood(merged)[j].row.content.origContent
      ==> RankFood(merged)[i].foodRank == RankFood(merged)[j].foodRank
  {
    var r := RankFood(merged);
    assert KeyLe(Rows(r)[i], Rows(r)[j]);
    KeyLeSameName(r[i].row, r[j].row);
    AverageRankMonotone(merged, r[i].row.compound.name, r[i].row.content.origContent, r[j].row.content.origContent);
  }

  /** Every rank lies between 1 and the number of rows of its compound. */
  lemma RankFoodBounds(merged: seq<Joined>, i: nat)
    requires i < |RankFood(merged)|
    ensures 1.0 <= RankFood(merged)[i].foodRank <= GroupSize(merged, RankFood(merged)[i].row.compound.name) as real
  {
    var r := RankFood(merged);
    assert r[i].row in multiset(Rows(r));
    var j :| 0 <= j < |merged| && merged[j] == r[i].row;
    AverageRankBounds(merged, j);
  }

  /** No two rows share both compound and concentration. */
  predicate DistinctKeys(s: seq<Joined>)
  {
    forall i, j :: 0 <= i < j < |s| ==> !SameKey(s[i], s[j])
  }

  /** A row whose concentration is unique within its compound: exactly one row sits at its level. */
  predicate UntiedAt(s: seq<Joined>, x: Joined)
  {
    CountIf(s, AtLeast(x.compound.name, x.content.origContent))
      == CountIf(s, Above(x.compound.name, x.content.origContent)) + 1
  }

  lemma DistinctKeysUntied(s: seq<Joined>, j: nat)
    requires DistinctKeys(s) && j < |s|
    ensures UntiedAt(s, s[j])
  {
    var n, v := s[j].compound.name, s[j].content.origContent;
    forall k | 0 <= k < |s| ensures AtLeast(n, v)(s[k]) <==> Above(n, v)(s[k]) || k == j {
      if k < j {
        assert !SameKey(s[k], s[j]);
      } else if k > j {
        assert !SameKey(s[j], s[k]);
      }
    }
    CountIfPlusOne(s, AtLeast(n, v), Above(n, v), j);
  }

  /** In a sorted table an untied row ranks at its 1-based position within its group. */
  lemma UntiedPositionRank(s: seq<Joined>, i: nat)
    requires Sorted(s) && i < |s| && UntiedAt(s, s[i])
    ensures PositionRank(s, i) == (i - GroupStart(s, i) + 1) as real
  {
    RunCountAbove(s, i);
    RunCountAtLeast(s, i);
  }

  /** In a sorted table, all rows of one compound share their group start. */
  lemma GroupStartShared(s: seq<Joined>, i: nat, k: nat)
    requires Sorted(s) && i <= k < |s|
    requires s[i].compound.name == s[k].compound.name
    ensures GroupStart(s, i) == GroupStart(s, k)
  {
    var g := GroupStart(s, k);
    GroupStartSpec(s, i);
    GroupStartSpec(s, k);
    if g > i + 1 {
      NameSqueeze(s[i], s[g - 1], s[k]);
    }
    forall m | g <= m <= i ensures s[m].compound.name == s[i].compound.name {
    }
  }
}
