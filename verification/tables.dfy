/**
 The records of the three raw tables and of the tables derived from them.
 Column-name suffixes that pandas adds on a merge (`name_compounds`,
 `name_foods`) become distinct record fields here.
 */
module Tables {

  /** A row of `foods.csv`. */
  datatype Food = Food(id: int, name: string)

  /** A row of `compounds.csv`. */
  datatype Compound = Compound(id: int, name: string)

  /** A row of `contents.csv`: `source_id`, `source_type`, `food_id`, `orig_content`. */
  datatype Content = Content(sourceId: int, sourceType: string, foodId: int, origContent: real)

  /** A row of the first merge: a content row and the compound it names. */
  datatype Linked = Linked(content: Content, compound: Compound)

  /** A row of the second merge: a content row with its compound and its food. */
  datatype Joined = Joined(content: Content, compound: Compound, food: Food)

  /** A merged row carrying its `food_rank` column. */
  datatype Ranked = Ranked(row: Joined, foodRank: real)

  /** A row of the ranked table: `compound_name, food_rank, food_name, concentration`. */
  datatype FactRow = FactRow(compoundName: string, foodRank: real, foodName: string, concentration: real)
}
