/**
 The one-shot script `scripts/get_compounds.py`: the same join and rank as the
 fact builder, but the requested compounds are selected before ranking, the
 names are neither trimmed nor capitalized, an empty compound selection is not
 an error, and the table is cut at the fixed bound `food_rank < 6`.
 */
module GetCompounds {
  import opened Tables
  import opened Seqs
  import opened Text
  import opened Sorting
  import opened Ranking
  import Database

  /** `input(...).split(",")`: the raw pieces, untrimmed. */
  function GetCompoundNames(raw: string): (r: seq<string>)
    ensures |r| >= 1
    ensures |r| == CountChar(raw, ',') + 1
    ensures Join(r, ",") == raw
    ensures forall k :: 0 <= k < |r| ==> ',' !in r[k]
  {
    SplitCount(raw, ',');
    JoinSplit(raw, ',');
    Split(raw, ',')
  }

  /** The compound rows of `contents`, in order; no error when there are none. */
  function FilterCompoundOnly(contents: seq<Content>): (r: seq<Content>)
    ensures forall c :: c in r <==> c in contents && c.sourceType == Database.COMPOUND_TAG
    ensures r == Filter(contents, Database.IsCompoundRow)
  {
    Filter(contents, Database.IsCompoundRow)
  }

  /** The script keeps the same rows as the fact builder, and returns nothing exactly where the builder raises. */
  lemma FilterCompoundOnlyAgrees(contents: seq<Content>)
    ensures Database.FilterCompoundOnly(contents).Failure? <==> FilterCompoundOnly(contents) == []
    ensures Database.FilterCompoundOnly(contents).Success? ==>
      Database.FilterCompoundOnly(contents).value == FilterCompoundOnly(contents)
  {
    var r := FilterCompoundOnly(contents);
    if r != [] {
      assert r[0] in r;
    }
  }

  /** Inner merge on `source_id = id`, then on `food_id = id`, taking the tables in the script's argument order. */
  function MergeTables(contentsWithCompounds: seq<Content>, compounds: seq<Compound>, foods: seq<Food>): (r: seq<Joined>)
    ensures forall j :: j in r <==>
      && j.content in contentsWithCompounds && j.compound in compounds && j.food in foods
      && j.content.sourceId == j.compound.id && j.content.foodId == j.food.id
  {
    Database.MergeTables(foods, compounds, contentsWithCompounds)
  }

  /** Selects the merged rows of the requested compounds (`isin` on `name_compounds`). */
  function IsRequested(names: seq<string>): Joined -> bool
  {
    (j: Joined) => j.compound.name in names
  }

  /** `filter_compounds`: the merged rows whose compound is requested, in order. */
  function FilterCompounds(merged: seq<Joined>, names: seq<string>): (r: seq<Joined>)
    ensures forall j :: j in r <==> j in merged && j.compound.name in names
    ensures r == Filter(merged, IsRequested(names))
  {
    Filter(merged, IsRequested(names))
  }

  /** `rank_food`, applied after the compound selection: the ranks are taken among the selected rows. */
  function RankFood(filtered: seq<Joined>): (r: seq<Ranked>)
    ensures |r| == |filtered|
    ensures multiset(Rows(r)) == multiset(filtered)
    ensures Sorted(Rows(r))
    ensures forall i :: 0 <= i < |r| ==>
      r[i].foodRank == AverageRank(filtered, r[i].row.compound.name, r[i].row.content.origContent)
  {
    Ranking.RankFood(filtered)
  }

  /** The fixed cut-off of the script: ranks strictly below 6, so the top five. */
  const RANK_BOUND: real := 6.0

  /** Selects the formatted rows ranked strictly below the bound. */
  function BelowBound(x: FactRow): bool
  {
    x.foodRank < RANK_BOUND
  }

  /** `format_output`: rename the four columns, then keep the rows with `food_rank < 6`, in order. */
  function FormatOutput(ranked: seq<Ranked>): (r: seq<FactRow>)
    ensures forall x :: x in r <==> x in Database.FormatOutput(ranked) && x.foodRank < RANK_BOUND
    ensures r == Filter(Database.FormatOutput(ranked), BelowBound)
  {
    Filter(Database.FormatOutput(ranked), BelowBound)
  }

  const OUTPUT_PREFIX: string := "output_files/compound_food_source_report_"

  /** The report path of the script: the raw names joined by `-`, with no top-N part. */
  function ReportName(names: seq<string>): (r: string)
    ensures |r| == |OUTPUT_PREFIX| + |Join(names, "-")| + 4
    ensures r[..|OUTPUT_PREFIX|] == OUTPUT_PREFIX
    ensures r[|OUTPUT_PREFIX|..|r| - 4] == Join(names, "-")
    ensures r[|r| - 4..] == ".csv"
  {
    var r := OUTPUT_PREFIX + Join(names, "-") + ".csv";
    assert r[..|OUTPUT_PREFIX|] == OUTPUT_PREFIX;
    assert r[|OUTPUT_PREFIX|..|r| - 4] == Join(names, "-");
    r
  }

  /** After ranking the requested rows and cutting, every row is of a requested compound and ranked below the bound. */
  lemma KeptRowsRequested(ranked: seq<Ranked>, names: seq<string>)
    requires forall i :: 0 <= i < |ranked| ==> ranked[i].row.compound.name in names
    ensures forall i :: 0 <= i < |FormatOutput(ranked)| ==>
      FormatOutput(ranked)[i].compoundName in names && FormatOutput(ranked)[i].foodRank < RANK_BOUND
  {
    var rows := FormatOutput(ranked);
    forall i | 0 <= i < |rows| ensures rows[i].compoundName in names && rows[i].foodRank < RANK_BOUND {
      assert rows[i] in rows;
      var f := Database.FormatOutput(ranked);
      var k :| 0 <= k < |f| && f[k] == rows[i];
    }
  }

  /** The rows and file name `main` writes, given the prompt text and the three raw tables. */
  datatype Output = Output(rows: seq<FactRow>, fileName: string)

  /** `main` without the prompt and the file I/O. */
  function RunScript(raw: string, foods: seq<Food>, compounds: seq<Compound>, contents: seq<Content>): (r: Output)
    ensures forall i :: 0 <= i < |r.rows| ==>
      r.rows[i].compoundName in GetCompoundNames(raw) && r.rows[i].foodRank < RANK_BOUND
    ensures r.fileName == ReportName(GetCompoundNames(raw))
  {
    var names := GetCompoundNames(raw);
    var selected := FilterCompounds(MergeTables(FilterCompoundOnly(contents), compounds, foods), names);
    var ranked := RankFood(selected);
    assert forall i :: 0 <= i < |ranked| ==> ranked[i].row.compound.name in names by {
      forall i | 0 <= i < |ranked| ensures ranked[i].row.compound.name in names {
        assert ranked[i].row == Rows(ranked)[i];
        assert ranked[i].row in multiset(selected);
      }
    }
    var rows := FormatOutput(ranked);
    KeptRowsRequested(ranked, names);
    Output(rows, ReportName(names))
  }

  /** Selects the formatted rows of compound `name`. */
  function OfName(name: string): FactRow -> bool
  {
    (x: FactRow) => x.compoundName == name
  }

  /** Selects the formatted rows of compound `name` that survive the cut. */
  function KeptOfName(name: string): FactRow -> bool
  {
    (x: FactRow) => x.compoundName == name && x.foodRank < RANK_BOUND
  }

  /**
   When no two selected rows of a compound share a concentration, the ranks of a
   compound are 1, 2, 3, ... and the cut keeps at most five rows per compound.
   */
  lemma AtMostFivePerCompound(filtered: seq<Joined>, name: string)
    requires DistinctKeys(filtered)
    ensures CountIf(FormatOutput(RankFood(filtered)), OfName(name)) <= 5
  {
    var r := RankFood(filtered);
    var s := Rows(r);
    var f := Database.FormatOutput(r);
    CountIfFilter(f, BelowBound, OfName(name), KeptOfName(name));
    if i0 :| 0 <= i0 < |s| && s[i0].compound.name == name {
      var g := GroupStart(s, i0);
      forall k | 0 <= k < |f| && KeptOfName(name)(f[k]) ensures g <= k < g + 5 {
        var v := s[k].content.origContent;
        assert s[k] in multiset(filtered);
        var j :| 0 <= j < |filtered| && filtered[j] == s[k];
        DistinctKeysUntied(filtered, j);
        CountIfPermutation(s, filtered, AtLeast(name, v));
        CountIfPermutation(s, filtered, Above(name, v));
        AverageRankPermutation(s, filtered, name, v);
        PositionRankIsAverage(s, k);
        UntiedPositionRank(s, k);
        if k < i0 {
          GroupStartShared(s, k, i0);
        } else {
          GroupStartShared(s, i0, k);
        }
      }
      CountIfWithin(f, KeptOfName(name), g, g + 5);
    } else {
      CountIfWithin(f, KeptOfName(name), 0, 0);
    }
  }
}
