/**
 The query engine of `core/analysis.py`: parse the requested compound names,
 select their rows of the ranked table, keep the top `top_n` ranks, and name
 the report file.
 */
module Analysis {
  import opened Results
  import opened Tables
  import opened Seqs
  import opened Text

  /** The prompt is re-asked when nothing usable was entered. */
  datatype ParseError = NoCompoundEntered

  /** The `ValueError` raised when no requested compound is in the table. */
  datatype QueryError = NoDataFound

  /** The rows kept for the requested compounds and the requested names that the table does not know. */
  datatype Selection = Selection(rows: seq<FactRow>, missing: seq<string>)

  /** The pure part of `get_ranked_foods`: the report rows, the unknown names warned about, and the file name. */
  datatype Report = Report(rows: seq<FactRow>, missing: seq<string>, fileName: string)

  /** `c.strip().capitalize()`. */
  function Normalize(piece: string): string
  {
    Capitalize(Strip(piece))
  }

  /** Normalizing twice is normalizing once. */
  lemma NormalizeIdempotent(piece: string)
    ensures Normalize(Normalize(piece)) == Normalize(piece)
  {
    var y := Strip(piece);
    StripSlice(piece);
    CapitalizeKeepsSpaces(y);
    StripUnchanged(Capitalize(y));
    CapitalizeIdempotent(y);
  }

  /**
   Surrounding blanks and letter case do not matter: two pieces whose stripped
   forms agree up to ASCII case normalize to the same name.
   */
  lemma NormalizeIgnoresCaseAndBlanks(a: string, b: string)
    requires |Strip(a)| == |Strip(b)|
    requires forall k :: 0 <= k < |Strip(a)| ==> Lower(Strip(a)[k]) == Lower(Strip(b)[k])
    ensures Normalize(a) == Normalize(b)
  {
    CapitalizeIgnoresCase(Strip(a), Strip(b));
  }

  /** A piece normalizes to the empty name exactly when it is blank. */
  lemma NormalizeEmpty(piece: string)
    ensures Normalize(piece) == "" <==> forall k :: 0 <= k < |piece| ==> IsSpace(piece[k])
  {
    CapitalizeKeepsSpaces(Strip(piece));
    StripEmpty(piece);
  }

  function NormalizeAll(pieces: seq<string>): (r: seq<string>)
    ensures |r| == |pieces|
    ensures forall k :: 0 <= k < |r| ==> r[k] == Normalize(pieces[k])
  {
    seq(|pieces|, k requires 0 <= k < |pieces| => Normalize(pieces[k]))
  }

  /** The parsed list is `[""]` exactly when the input has no comma and is blank. */
  lemma BlankInput(raw: string)
    ensures NormalizeAll(Split(raw, ',')) == [""] <==> ',' !in raw && forall k :: 0 <= k < |raw| ==> IsSpace(raw[k])
  {
    var pieces := Split(raw, ',');
    SplitCount(raw, ',');
    CountCharZero(raw, ',');
    if ',' !in raw {
      SplitNoSeparator(raw, ',');
      NormalizeEmpty(raw);
      assert NormalizeAll(pieces) == [Normalize(raw)];
    } else {
      assert |pieces| >= 2;
    }
  }

  /**
   The list comprehension and emptiness test of `get_compound_names`: one name
   per comma-separated piece, each stripped and capitalized; the input is
   rejected only when it has no comma and is blank.
   */
  function ParseCompoundNames(raw: string): (r: Result<seq<string>, ParseError>)
    ensures r.Failure? <==> ',' !in raw && forall k :: 0 <= k < |raw| ==> IsSpace(raw[k])
    ensures r.Success? ==> |r.value| == |Split(raw, ',')| == CountChar(raw, ',') + 1
    ensures r.Success? ==> forall k :: 0 <= k < |r.value| ==> r.value[k] == Normalize(Split(raw, ',')[k])
  {
    var names := NormalizeAll(Split(raw, ','));
    SplitCount(raw, ',');
    BlankInput(raw);
    if names == [""] then Failure(NoCompoundEntered) else Success(names)
  }

  /** The distinct values of the `compound_name` column. */
  function AvailableCompounds(table: seq<FactRow>): (r: set<string>)
    ensures forall n :: n in r <==> exists i :: 0 <= i < |table| && table[i].compoundName == n
  {
    set i | 0 <= i < |table| :: table[i].compoundName
  }

  /** Selects the rows of the requested compounds (`isin`). */
  function IsRequested(names: seq<string>): FactRow -> bool
  {
    (x: FactRow) => x.compoundName in names
  }

  /** Selects the requested names the table does not know. */
  function IsUnknown(table: seq<FactRow>): string -> bool
  {
    (n: string) => n !in AvailableCompounds(table)
  }

  /**
   `filter_compounds`: the rows whose compound is requested, in table order, and
   the requested names, in request order, that the table does not contain. It
   fails exactly when no row matches; unknown names alone are only a warning.
   */
  function FilterCompounds(table: seq<FactRow>, names: seq<string>): (r: Result<Selection, QueryError>)
    ensures r.Failure? <==> forall i :: 0 <= i < |table| ==> table[i].compoundName !in names
    ensures r.Success? ==> forall x :: x in r.value.rows <==> x in table && x.compoundName in names
    ensures r.Success? ==> r.value.rows == Filter(table, IsRequested(names))
    ensures r.Success? ==> forall n :: n in r.value.missing <==>
      n in names && forall i :: 0 <= i < |table| ==> table[i].compoundName != n
    ensures r.Success? ==> r.value.missing == Filter(names, IsUnknown(table))
  {
    var missing := Filter(names, IsUnknown(table));
    var rows := Filter(table, IsRequested(names));
    if |rows| == 0 then
      assert forall i :: 0 <= i < |table| ==> table[i].compoundName !in names by {
        forall i | 0 <= i < |table| ensures table[i].compoundName !in names {
          assert table[i] in table;
        }
      }
      Failure(NoDataFound)
    else
      assert rows[0] in rows;
      Success(Selection(rows, missing))
  }

  /** The query fails exactly when every requested name is unknown to the table. */
  lemma FilterCompoundsFailsIffAllMissing(table: seq<FactRow>, names: seq<string>)
    ensures FilterCompounds(table, names).Failure? <==> Filter(names, IsUnknown(table)) == names
  {
    FilterIdentity(names, IsUnknown(table));
    if forall k :: 0 <= k < |names| ==> IsUnknown(table)(names[k]) {
      forall i | 0 <= i < |table| ensures table[i].compoundName !in names {
        assert table[i].compoundName in AvailableCompounds(table);
      }
    }
  }

  /** Selects the rows ranked `top_n` or better. */
  function WithinTop(topN: int): FactRow -> bool
  {
    (x: FactRow) => x.foodRank <= topN as real
  }

  /** `get_top_compounds`: the rows with `food_rank <= top_n`, in order. */
  function GetTopCompounds(rows: seq<FactRow>, topN: int): (r: seq<FactRow>)
    ensures forall x :: x in r <==> x in rows && x.foodRank <= topN as real
    ensures forall i :: 0 <= i < |r| ==> r[i].foodRank <= topN as real
    ensures r == Filter(rows, WithinTop(topN))
  {
    var r := Filter(rows, WithinTop(topN));
    assert forall i :: 0 <= i < |r| ==> r[i].foodRank <= topN as real by {
      forall i | 0 <= i < |r| ensures r[i].foodRank <= topN as real {
        assert r[i] in r;
      }
    }
    r
  }

  /** Cutting at `top_n` twice is cutting once. */
  lemma GetTopCompoundsIdempotent(rows: seq<FactRow>, topN: int)
    ensures GetTopCompounds(GetTopCompounds(rows, topN), topN) == GetTopCompounds(rows, topN)
  {
    FilterIdempotent(rows, WithinTop(topN));
  }

  /** The cut returns its input unchanged exactly when every rank is within `top_n`. */
  lemma GetTopCompoundsUnchanged(rows: seq<FactRow>, topN: int)
    ensures GetTopCompounds(rows, topN) == rows <==> forall i :: 0 <= i < |rows| ==> rows[i].foodRank <= topN as real
  {
    FilterIdentity(rows, WithinTop(topN));
  }

  const REPORT_PREFIX: string := "compound_food_source_report_"
  const TOP_MARK: string := "_top_"
  const CSV_EXTENSION: string := ".csv"

  /** The part of a report name after the compound list: the `top_n` value and the extension. */
  function ReportTail(topN: int): (r: string)
    ensures |r| == |TOP_MARK| + |IntToString(topN)| + |CSV_EXTENSION|
    ensures r[..|TOP_MARK|] == TOP_MARK
    ensures r[|TOP_MARK|..|r| - |CSV_EXTENSION|] == IntToString(topN)
    ensures r[|r| - |CSV_EXTENSION|..] == CSV_EXTENSION
  {
    Slice(TOP_MARK, IntToString(topN), CSV_EXTENSION);
    TOP_MARK + IntToString(topN) + CSV_EXTENSION
  }

  /** The report file name: the fixed prefix, the names joined by `-`, then the `top_n` value. */
  function ReportName(names: seq<string>, topN: int): (r: string)
    ensures |r| == |REPORT_PREFIX| + |Join(names, "-")| + |ReportTail(topN)|
    ensures r[..|REPORT_PREFIX|] == REPORT_PREFIX
    ensures r[|REPORT_PREFIX|..|REPORT_PREFIX| + |Join(names, "-")|] == Join(names, "-")
    ensures r[|REPORT_PREFIX| + |Join(names, "-")|..] == ReportTail(topN)
  {
    Slice(REPORT_PREFIX, Join(names, "-"), ReportTail(topN));
    REPORT_PREFIX + Join(names, "-") + ReportTail(topN)
  }

  lemma Slice(p: string, x: string, c: string)
    ensures (p + x + c)[..|p|] == p
    ensures (p + x + c)[|p|..|p| + |x|] == x
    ensures (p + x + c)[|p| + |x|..] == c
  {
  }

  /** The same requested names with different `top_n` values give different report names. */
  lemma ReportNameDistinguishesTopN(names: seq<string>, a: int, b: int)
    requires ReportName(names, a) == ReportName(names, b)
    ensures a == b
  {
    var m := |REPORT_PREFIX| + |Join(names, "-")|;
    var ta, tb := ReportTail(a), ReportTail(b);
    assert ta == ReportName(names, a)[m..] == tb;
    IntToStringInjective(a, b);
  }

  /**
   When no requested name contains `-`, the report name determines the list of
   names; names such as "Omega-3" make two different requests share a file name.
   */
  lemma ReportNameDistinguishesNames(ns: seq<string>, ms: seq<string>, topN: int)
    requires |ns| >= 1 && |ms| >= 1
    requires forall k :: 0 <= k < |ns| ==> '-' !in ns[k]
    requires forall k :: 0 <= k < |ms| ==> '-' !in ms[k]
    requires ReportName(ns, topN) == ReportName(ms, topN)
    ensures ns == ms
  {
    var jn, jm := Join(ns, "-"), Join(ms, "-");
    var r := ReportName(ns, topN);
    assert |r| == |REPORT_PREFIX| + |jn| + |ReportTail(topN)|;
    assert |jn| == |jm|;
    assert jn == r[|REPORT_PREFIX|..|REPORT_PREFIX| + |jn|] == jm;
    SplitJoin(ns, '-');
    SplitJoin(ms, '-');
  }

  /**
   `get_ranked_foods` without the prompt and the file I/O: select the requested
   compounds, keep ranks up to `top_n`, and name the report after the names and
   the same `top_n`.
   */
  function GetRankedFoods(table: seq<FactRow>, names: seq<string>, topN: int): (r: Result<Report, QueryError>)
    ensures r.Failure? <==> forall i :: 0 <= i < |table| ==> table[i].compoundName !in names
    ensures r.Success? ==> forall x :: x in r.value.rows <==>
      x in table && x.compoundName in names && x.foodRank <= topN as real
    ensures r.Success? ==> forall n :: n in r.value.missing <==>
      n in names && forall i :: 0 <= i < |table| ==> table[i].compoundName != n
    ensures r.Success? ==> r.value.fileName == ReportName(names, topN)
  {
    match FilterCompounds(table, names)
    case Failure(e) => Failure(e)
    case Success(sel) => Success(Report(GetTopCompounds(sel.rows, topN), sel.missing, ReportName(names, topN)))
  }
}
