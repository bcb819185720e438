/**
 The fact builder of `core/database.py`: keep the compound rows of the content
 table, join them to compounds and foods, rank foods per compound by
 concentration and project the result to the four columns of the ranked table.
 */
module Database {
  import opened Results
  import opened Tables
  import opened Seqs
  import opened Sorting
  import opened Ranking
  import Lex

  /** The `ValueError` raised when no content row is tagged as a compound. */
  datatype BuildError = NoCompoundFound

  /** The `source_type` value that marks a content row as describing a compound. */
  const COMPOUND_TAG: string := "Compound"

  predicate IsCompoundRow(c: Content)
  {
    c.sourceType == COMPOUND_TAG
  }

  /** The compound rows of `contents`, in order; an error when there are none. */
  function FilterCompoundOnly(contents: seq<Content>): (r: Result<seq<Content>, BuildError>)
    ensures r.Failure? <==> forall i :: 0 <= i < |contents| ==> contents[i].sourceType != COMPOUND_TAG
    ensures r.Success? ==> |r.value| > 0
    ensures r.Success? ==> forall c :: c in r.value <==> c in contents && c.sourceType == COMPOUND_TAG
    ensures r.Success? ==> r.value == Filter(contents, IsCompoundRow)
  {
    var kept := Filter(contents, IsCompoundRow);
    if |kept| == 0 then
      assert forall i :: 0 <= i < |contents| ==> contents[i].sourceType != COMPOUND_TAG by {
        forall i | 0 <= i < |contents| ensures contents[i].sourceType != COMPOUND_TAG {
          assert contents[i] in contents;
        }
      }
      Failure(NoCompoundFound)
    else
      assert kept[0] in contents;
      Success(kept)
  }

  /** The compounds whose id is the `source_id` of content row `c`, paired with it, in compound-table order. */
  function MatchCompounds(c: Content, compounds: seq<Compound>): (r: seq<Linked>)
    ensures forall l :: l in r <==> l.content == c && l.compound in compounds && l.compound.id == c.sourceId
  {
    if |compounds| == 0 then []
    else
      (if compounds[0].id == c.sourceId then [Linked(c, compounds[0])] else [])
      + MatchCompounds(c, compounds[1..])
  }

  /** Inner merge of content rows with compounds on `source_id = id`, in content-row order. */
  function JoinCompounds(contents: seq<Content>, compounds: seq<Compound>): (r: seq<Linked>)
    ensures forall l :: l in r <==>
      l.content in contents && l.compound in compounds && l.content.sourceId == l.compound.id
  {
    if |contents| == 0 then []
    else MatchCompounds(contents[0], compounds) + JoinCompounds(contents[1..], compounds)
  }

  /** The foods whose id is the `food_id` of linked row `l`, joined to it, in food-table order. */
  function MatchFoods(l: Linked, foods: seq<Food>): (r: seq<Joined>)
    ensures forall j :: j in r <==>
      j.content == l.content && j.compound == l.compound && j.food in foods && j.food.id == l.content.foodId
  {
    if |foods| == 0 then []
    else
      (if foods[0].id == l.content.foodId then [Joined(l.content, l.compound, foods[0])] else [])
      + MatchFoods(l, foods[1..])
  }

  /** Inner merge of linked rows with foods on `food_id = id`, in linked-row order. */
  function JoinFoods(linked: seq<Linked>, foods: seq<Food>): (r: seq<Joined>)
    ensures forall j :: j in r <==>
      Linked(j.content, j.compound) in linked && j.food in foods && j.content.foodId == j.food.id
  {
    if |linked| == 0 then []
    else MatchFoods(linked[0], foods) + JoinFoods(linked[1..], foods)
  }

  /**
   Both inner merges: a row exists for a (content, compound, food) triple exactly
   when the content row names that compound and that food. Content rows that
   match no compound or no food are dropped without an error.
   */
  function MergeTables(foods: seq<Food>, compounds: seq<Compound>, contents: seq<Content>): (r: seq<Joined>)
    ensures forall j :: j in r <==>
      && j.content in contents && j.compound in compounds && j.food in foods
      && j.content.sourceId == j.compound.id && j.content.foodId == j.food.id
  {
    JoinFoods(JoinCompounds(contents, compounds), foods)
  }

  /** No two compounds share an id. */
  predicate UniqueCompoundIds(compounds: seq<Compound>)
  {
    forall i, j :: 0 <= i < j < |compounds| ==> compounds[i].id != compounds[j].id
  }

  /** No two foods share an id. */
  predicate UniqueFoodIds(foods: seq<Food>)
  {
    forall i, j :: 0 <= i < j < |foods| ==> foods[i].id != foods[j].id
  }

  lemma {:induction false} MatchCompoundsAtMostOne(c: Content, compounds: seq<Compound>)
    requires UniqueCompoundIds(compounds)
    ensures |MatchCompounds(c, compounds)| <= 1
  {
    if |compounds| > 0 {
      if compounds[0].id == c.sourceId {
        forall k | k in compounds[1..] ensures k.id != c.sourceId {
          var m :| 0 <= m < |compounds[1..]| && compounds[1..][m] == k;
          assert compounds[m + 1] == k;
        }
        assert |MatchCompounds(c, compounds[1..])| == 0 by {
          if |MatchCompounds(c, compounds[1..])| > 0 {
            assert MatchCompounds(c, compounds[1..])[0] in MatchCompounds(c, compounds[1..]);
          }
        }
      } else {
        MatchCompoundsAtMostOne(c, compounds[1..]);
      }
    }
  }

  lemma {:induction false} MatchFoodsAtMostOne(l: Linked, foods: seq<Food>)
    requires UniqueFoodIds(foods)
    ensures |MatchFoods(l, foods)| <= 1
  {
    if |foods| > 0 {
      if foods[0].id == l.content.foodId {
        forall d | d in foods[1..] ensures d.id != l.content.foodId {
          var m :| 0 <= m < |foods[1..]| && foods[1..][m] == d;
          assert foods[m + 1] == d;
        }
        assert |MatchFoods(l, foods[1..])| == 0 by {
          if |MatchFoods(l, foods[1..])| > 0 {
            assert MatchFoods(l, foods[1..])[0] in MatchFoods(l, foods[1..]);
          }
        }
      } else {
        MatchFoodsAtMostOne(l, foods[1..]);
      }
    }
  }

  lemma {:induction false} JoinCompoundsLength(contents: seq<Content>, compounds: seq<Compound>)
    requires UniqueCompoundIds(compounds)
    ensures |JoinCompounds(contents, compounds)| <= |contents|
  {
    if |contents| > 0 {
      MatchCompoundsAtMostOne(contents[0], compounds);
      JoinCompoundsLength(contents[1..], compounds);
    }
  }

  lemma {:induction false} JoinFoodsLength(linked: seq<Linked>, foods: seq<Food>)
    requires UniqueFoodIds(foods)
    ensures |JoinFoods(linked, foods)| <= |linked|
  {
    if |linked| > 0 {
      MatchFoodsAtMostOne(linked[0], foods);
      JoinFoodsLength(linked[1..], foods);
    }
  }

  /** With unique ids on both sides, the merge has at most one row per content row. */
  lemma MergeTablesLength(foods: seq<Food>, compounds: seq<Compound>, contents: seq<Content>)
    requires UniqueCompoundIds(compounds) && UniqueFoodIds(foods)
    ensures |MergeTables(foods, compounds, contents)| <= |contents|
  {
    JoinCompoundsLength(contents, compounds);
    JoinFoodsLength(JoinCompounds(contents, compounds), foods);
  }

  /** The four published columns of a ranked row. */
  function ToFact(x: Ranked): FactRow
  {
    FactRow(x.row.compound.name, x.foodRank, x.row.food.name, x.row.content.origContent)
  }

  /**
   Selects and renames the columns `name_compounds`, `food_rank`, `name_foods`,
   `orig_content` to `compound_name`, `food_rank`, `food_name`, `concentration`;
   row count and order are kept.
   */
  function FormatOutput(ranked: seq<Ranked>): (r: seq<FactRow>)
    ensures |r| == |ranked|
    ensures forall i :: 0 <= i < |r| ==>
      && r[i].compoundName == ranked[i].row.compound.name
      && r[i].foodRank == ranked[i].foodRank
      && r[i].foodName == ranked[i].row.food.name
      && r[i].concentration == ranked[i].row.content.origContent
  {
    seq(|ranked|, i requires 0 <= i < |ranked| => ToFact(ranked[i]))
  }

  /** The content, compound and food rows that a fact row was built from. */
  predicate Describes(f: FactRow, c: Content, k: Compound, d: Food)
  {
    f.compoundName == k.name && f.foodName == d.name && f.concentration == c.origContent
  }

  /** A content row tagged as a compound, together with the compound and the food it names. */
  predicate Source(contents: seq<Content>, compounds: seq<Compound>, foods: seq<Food>, c: Content, k: Compound, d: Food)
  {
    && c in contents && k in compounds && d in foods
    && c.sourceType == COMPOUND_TAG && c.sourceId == k.id && c.foodId == d.id
  }

  /** `create_db` without its file I/O: filter, merge, rank, format. */
  function CreateDb(foods: seq<Food>, compounds: seq<Compound>, contents: seq<Content>): (r: Result<seq<FactRow>, BuildError>)
    ensures r.Failure? <==> forall i :: 0 <= i < |contents| ==> contents[i].sourceType != COMPOUND_TAG
  {
    match FilterCompoundOnly(contents)
    case Failure(e) => Failure(e)
    case Success(kept) => Success(FormatOutput(RankFood(MergeTables(foods, compounds, kept))))
  }

  /** Soundness of the built table: every row comes from a compound-tagged content row and the compound and food it names. */
  lemma CreateDbSound(foods: seq<Food>, compounds: seq<Compound>, contents: seq<Content>, i: nat)
    requires CreateDb(foods, compounds, contents).Success?
    requires i < |CreateDb(foods, compounds, contents).value|
    ensures exists c, k, d ::
              Source(contents, compounds, foods, c, k, d)
              && Describes(CreateDb(foods, compounds, contents).value[i], c, k, d)
  {
    var kept := FilterCompoundOnly(contents).value;
    var ranked := RankFood(MergeTables(foods, compounds, kept));
    var t := FormatOutput(ranked);
    assert CreateDb(foods, compounds, contents).value == t;
    var x := ranked[i].row;
    assert x == Rows(ranked)[i];
    assert x in multiset(MergeTables(foods, compounds, kept));
    assert Source(contents, compounds, foods, x.content, x.compound, x.food);
    assert Describes(t[i], x.content, x.compound, x.food);
  }

  /** Ranking and formatting lose no merged row. */
  lemma FormatCovers(merged: seq<Joined>, x: Joined)
    requires x in merged
    ensures exists i ::
              0 <= i < |FormatOutput(RankFood(merged))|
              && Describes(FormatOutput(RankFood(merged))[i], x.content, x.compound, x.food)
  {
    var ranked := RankFood(merged);
    assert x in multiset(Rows(ranked));
    var i :| 0 <= i < |ranked| && Rows(ranked)[i] == x;
    assert Describes(FormatOutput(ranked)[i], x.content, x.compound, x.food);
  }

  /** Completeness of the built table: every compound-tagged content row that names a known compound and a known food yields a row. */
  lemma CreateDbComplete(foods: seq<Food>, compounds: seq<Compound>, contents: seq<Content>, c: Content, k: Compound, d: Food)
    requires CreateDb(foods, compounds, contents).Success?
    requires Source(contents, compounds, foods, c, k, d)
    ensures exists i ::
              0 <= i < |CreateDb(foods, compounds, contents).value|
              && Describes(CreateDb(foods, compounds, contents).value[i], c, k, d)
  {
    var kept := FilterCompoundOnly(contents).value;
    var merged := MergeTables(foods, compounds, kept);
    assert CreateDb(foods, compounds, contents).value == FormatOutput(RankFood(merged));
    assert Joined(c, k, d) in merged;
    FormatCovers(merged, Joined(c, k, d));
  }

  /** Every rank of the built table lies between 1 and the number of rows of its compound, hence of the table. */
  lemma CreateDbRankBounds(foods: seq<Food>, compounds: seq<Compound>, contents: seq<Content>, i: nat)
    requires CreateDb(foods, compounds, contents).Success?
    requires i < |CreateDb(foods, compounds, contents).value|
    ensures var t := CreateDb(foods, compounds, contents).value;
      1.0 <= t[i].foodRank <= |t| as real
  {
    var kept := FilterCompoundOnly(contents).value;
    var merged := MergeTables(foods, compounds, kept);
    var ranked := RankFood(merged);
    assert CreateDb(foods, compounds, contents).value == FormatOutput(ranked);
    RankFoodBounds(merged, i);
    assert GroupSize(merged, ranked[i].row.compound.name) <= |merged|;
  }

  /**
   Rank correctness of the built table: rows are grouped by compound name in
   ascending order, concentrations never increase and ranks never decrease
   within a compound, and every rank lies between 1 and the number of rows of
   its compound.
   */
  lemma CreateDbRanks(foods: seq<Food>, compounds: seq<Compound>, contents: seq<Content>, i: nat, j: nat)
    requires CreateDb(foods, compounds, contents).Success?
    requires i < j < |CreateDb(foods, compounds, contents).value|
    ensures var t := CreateDb(foods, compounds, contents).value;
      && (t[i].compoundName == t[j].compoundName || Lex.Less(t[i].compoundName, t[j].compoundName))
      && (t[i].compoundName == t[j].compoundName ==>
            t[i].concentration >= t[j].concentration && t[i].foodRank <= t[j].foodRank)
      && 1.0 <= t[i].foodRank <= |t| as real
  {
    var kept := FilterCompoundOnly(contents).value;
    var merged := MergeTables(foods, compounds, kept);
    var ranked := RankFood(merged);
    assert KeyLe(Rows(ranked)[i], Rows(ranked)[j]);
    if ranked[i].row.compound.name == ranked[j].row.compound.name {
      RankFoodGroupOrder(merged, i, j);
    }
    RankFoodBounds(merged, i);
  }
}
