/** The two cleaning entry points: `preprocess_abund_table` (parse, strip,
    filter on the chosen rank, group by the ranks down to it and sum) and
    `preprocess_abund_table_phylum` (filter a phylum-level table on its
    `phylum` column). */
module Preprocessing {
  import opened Wrappers
  import opened Text
  import opened Seqs
  import opened Tables
  import opened Lineage
  import opened TaxonFilter
  import opened Aggregation

  datatype PreprocessError =
    | BadLineage(tokens: nat)     // the split lineage column is not Root plus seven ranks
    | UnknownRank(name: string)   // `tax_rank` names no rank column
    | NoDataRows                  // only the column-sum row: the blank-cell mask is empty
    | MissingColumn(name: string) // the phylum table has no `phylum` column

  /** The position of the first `name` in `names`, if any. */
  function FirstIndex(names: seq<string>, name: string): (r: Option<nat>)
    ensures r.None? <==> name !in names
    ensures r.Some? ==>
      r.value < |names| && names[r.value] == name && forall j :: 0 <= j < r.value ==> names[j] != name
  {
    if |names| == 0 then None
    else if names[0] == name then Some(0)
    else match FirstIndex(names[1..], name)
      case None => None
      case Some(i) => Some(i + 1)
  }

  /** The column of `tax_rank` among Kingdom..Species; no other name is a rank. */
  function RankIndex(taxRank: string): (r: Option<nat>)
    ensures r.None? <==> taxRank !in RankNames
    ensures r.Some? ==> r.value < |RankNames| && RankNames[r.value] == taxRank
  {
    FirstIndex(RankNames, taxRank)
  }

  /** Every row of the file has the same number of count columns. */
  predicate SameWidth(raw: seq<RawRow>) {
    forall i :: 0 <= i < |raw| ==> |raw[i].counts| == |raw[0].counts|
  }

  /** The table after the filters and `reset_index`: rank cells cleaned, then
      only the rows whose value at rank column `col` passes. */
  function Cleaned(parsed: seq<Row>, col: nat): seq<Row> {
    FilterRows(StripRanks(parsed), col, RankFilter)
  }

  lemma CleanedUniform(parsed: seq<Row>, col: nat, width: nat)
    requires forall i :: 0 <= i < |parsed| ==> |parsed[i].ranks| == |RankNames| && |parsed[i].counts| == width
    requires col < |RankNames|
    ensures Uniform(Cleaned(parsed, col), col + 1)
    ensures forall i :: 0 <= i < |Cleaned(parsed, col)| ==>
      |Cleaned(parsed, col)[i].ranks| == |RankNames| && |Cleaned(parsed, col)[i].counts| == width
  {
    var stripped := StripRanks(parsed);
    assert forall i :: 0 <= i < |stripped| ==> |stripped[i].ranks| == |RankNames| && |stripped[i].counts| == width;
  }

  /** `preprocess_abund_table(abund_table, tax_rank)`. A table with no data
      rows fails too: the blank-cell test on line 85 then yields an empty mask
      of object type, which pandas does not read as a row mask, and the lookup
      of the `tax_rank` column on line 88 finds no column. */
  function Preprocess(raw: seq<RawRow>, taxRank: string): (r: Result<seq<Row>, PreprocessError>)
    requires DataRowsComplete(raw) && SameWidth(raw)
    ensures r.Failure? <==> |raw| <= 1 || |Tokens(raw[0])| > 8 || taxRank !in RankNames
    ensures r == Failure(NoDataRows) <==> |raw| == 1 && |Tokens(raw[0])| == 8 && taxRank in RankNames
  {
    match ParseTable(raw)
    case Failure(LineageWidth(w)) => Failure(BadLineage(w))
    case Success(parsed) =>
      match RankIndex(taxRank)
      case None => Failure(UnknownRank(taxRank))
      case Some(col) =>
        if |parsed| == 0 then Failure(NoDataRows) else
        CleanedUniform(parsed, col, |raw[0].counts|);
        Success(Aggregate(Cleaned(parsed, col), col + 1))
  }

  /** A successful run aggregates the cleaned rows at the depth of `tax_rank`. */
  lemma PreprocessUnfold(raw: seq<RawRow>, taxRank: string)
    requires DataRowsComplete(raw) && SameWidth(raw)
    requires Preprocess(raw, taxRank).Success?
    ensures ParseTable(raw).Success? && RankIndex(taxRank).Some?
    ensures Uniform(Cleaned(ParseTable(raw).value, RankIndex(taxRank).value), RankIndex(taxRank).value + 1)
    ensures Preprocess(raw, taxRank).value
      == Aggregate(Cleaned(ParseTable(raw).value, RankIndex(taxRank).value), RankIndex(taxRank).value + 1)
  {
    CleanedUniform(ParseTable(raw).value, RankIndex(taxRank).value, |raw[0].counts|);
  }

  /** The output rank paths of a successful run strictly ascend, so no path
      occurs twice. */
  lemma PreprocessKeysUnique(raw: seq<RawRow>, taxRank: string)
    requires DataRowsComplete(raw) && SameWidth(raw)
    requires Preprocess(raw, taxRank).Success?
    ensures var out := Preprocess(raw, taxRank).value;
      forall i, j :: 0 <= i < j < |out| ==> KeyLess(out[i].ranks, out[j].ranks) && out[i].ranks != out[j].ranks
  {
    PreprocessUnfold(raw, taxRank);
    var depth := RankIndex(taxRank).value + 1;
    var kept := Cleaned(ParseTable(raw).value, depth - 1);
    AggregateKeysUnique(kept, depth);
    var out := Preprocess(raw, taxRank).value;
    assert out == Aggregate(kept, depth);
    forall i, j | 0 <= i < j < |out|
      ensures KeyLess(out[i].ranks, out[j].ranks) && out[i].ranks != out[j].ranks
    {
    }
  }

  /** Some row of `out` has rank path `path`. */
  predicate Covered(out: seq<Row>, path: seq<string>) {
    exists j :: 0 <= j < |out| && out[j].ranks == path
  }

  /** Grouping the rows a selection keeps loses none of them: every row that
      passes `p` has its rank path down to `depth` among the groups. */
  lemma FilterCover(rows: seq<Row>, p: Row -> bool, depth: nat)
    requires Uniform(Filter(rows, p), depth)
    ensures forall k :: 0 <= k < |rows| && p(rows[k]) ==>
      depth <= |rows[k].ranks| && Covered(Aggregate(Filter(rows, p), depth), rows[k].ranks[..depth])
  {
    var kept := Filter(rows, p);
    AggregateKeysCoverRows(kept, depth);
    forall k | 0 <= k < |rows| && p(rows[k])
      ensures depth <= |rows[k].ranks| && Covered(Aggregate(kept, depth), rows[k].ranks[..depth])
    {
      var m :| 0 <= m < |kept| && kept[m] == rows[k];
      var j :| 0 <= j < |Aggregate(kept, depth)| && Aggregate(kept, depth)[j].ranks == Key(kept[m], depth);
    }
  }

  /** The same for the cleaned rows, with the filter's test on the cleaned
      name at `col`. */
  lemma CleanedCover(parsed: seq<Row>, col: nat, width: nat)
    requires col < |RankNames|
    requires forall i :: 0 <= i < |parsed| ==> |parsed[i].ranks| == |RankNames| && |parsed[i].counts| == width
    ensures forall k :: 0 <= k < |parsed| && KeepTaxon(StripRow(parsed[k]).ranks[col]) ==>
      Covered(Aggregate(Cleaned(parsed, col), col + 1), StripRow(parsed[k]).ranks[..col + 1])
  {
    var stripped := StripRanks(parsed);
    var keep := (row: Row) => KeepRow(row, col, RankFilter);
    assert Cleaned(parsed, col) == Filter(stripped, keep);
    CleanedUniform(parsed, col, width);
    FilterCover(stripped, keep, col + 1);
    assert forall k :: 0 <= k < |parsed| ==> stripped[k] == StripRow(parsed[k]) && |stripped[k].ranks| == |RankNames|;
  }

  /** The same for the data rows of the file, parsed and cleaned. */
  lemma ParsedCover(raw: seq<RawRow>, col: nat)
    requires DataRowsComplete(raw) && SameWidth(raw) && ParseTable(raw).Success?
    requires col < |RankNames|
    ensures forall i :: 1 <= i < |raw| && KeepTaxon(StripRow(ParseRow(raw[i])).ranks[col]) ==>
      Covered(Aggregate(Cleaned(ParseTable(raw).value, col), col + 1), StripRow(ParseRow(raw[i])).ranks[..col + 1])
  {
    var parsed := ParseTable(raw).value;
    CleanedCover(parsed, col, |raw[0].counts|);
    forall i | 1 <= i < |raw|
      ensures parsed[i - 1] == ParseRow(raw[i])
    {
    }
  }

  /** No retained row is lost by the grouping: every data row whose cleaned
      `tax_rank` name passes the filter has its rank path, Kingdom down to
      `tax_rank`, among the output rows. */
  lemma PreprocessKeysCover(raw: seq<RawRow>, taxRank: string)
    requires DataRowsComplete(raw) && SameWidth(raw)
    requires Preprocess(raw, taxRank).Success?
    ensures var col := RankIndex(taxRank).value;
      forall i :: 1 <= i < |raw| && KeepTaxon(StripRow(ParseRow(raw[i])).ranks[col]) ==>
        Covered(Preprocess(raw, taxRank).value, StripRow(ParseRow(raw[i])).ranks[..col + 1])
  {
    PreprocessUnfold(raw, taxRank);
    ParsedCover(raw, RankIndex(taxRank).value);
  }

  /** Every cleaned row has a kept name at rank column `col`. */
  lemma CleanedKept(parsed: seq<Row>, col: nat)
    ensures forall i :: 0 <= i < |Cleaned(parsed, col)| ==>
      col < |Cleaned(parsed, col)[i].ranks| && KeepTaxon(Cleaned(parsed, col)[i].ranks[col])
  {
  }

  /** Grouping rows whose names at column `col` all pass the filter yields
      groups of `col + 1` ranks whose names at `col` pass too. */
  lemma AggregateKept(kept: seq<Row>, col: nat)
    requires Uniform(kept, col + 1)
    requires forall i :: 0 <= i < |kept| ==> col < |kept[i].ranks| && KeepTaxon(kept[i].ranks[col])
    ensures var out := Aggregate(kept, col + 1);
      forall j :: 0 <= j < |out| ==> |out[j].ranks| == col + 1 && KeepTaxon(out[j].ranks[col])
  {
    var out := Aggregate(kept, col + 1);
    AggregateKeyLength(kept, col + 1);
    AggregateKeysAt(kept, col + 1, col);
    forall j | 0 <= j < |out|
      ensures KeepTaxon(out[j].ranks[col])
    {
      var i :| 0 <= i < |kept| && kept[i].ranks[col] == out[j].ranks[col];
    }
  }

  /** Every output row of a successful run holds the ranks Kingdom..`tax_rank`
      (`RankIndex(tax_rank) + 1` columns), and its `tax_rank` name is one the
      filter keeps. */
  lemma PreprocessKeysKept(raw: seq<RawRow>, taxRank: string)
    requires DataRowsComplete(raw) && SameWidth(raw)
    requires Preprocess(raw, taxRank).Success?
    ensures var out := Preprocess(raw, taxRank).value;
      forall j :: 0 <= j < |out| ==>
        |out[j].ranks| == RankIndex(taxRank).value + 1 && KeepTaxon(out[j].ranks[RankIndex(taxRank).value])
  {
    PreprocessUnfold(raw, taxRank);
    CleanedKept(ParseTable(raw).value, RankIndex(taxRank).value);
    AggregateKept(Cleaned(ParseTable(raw).value, RankIndex(taxRank).value), RankIndex(taxRank).value);
  }

  /** Grouping rows of `width` counts keeps each column's total, and each
      group's count is the sum over the rows on its rank path. */
  lemma AggregateWidthSums(kept: seq<Row>, depth: nat, width: nat)
    requires Uniform(kept, depth)
    requires forall i :: 0 <= i < |kept| ==> |kept[i].counts| == width
    ensures var out := Aggregate(kept, depth);
      && (forall c :: 0 <= c < width ==> Total(out, c) == Total(kept, c))
      && (forall j, c :: 0 <= j < |out| && 0 <= c < width ==>
            c < |out[j].counts| && out[j].counts[c] == KeySum(kept, out[j].ranks, depth, c))
  {
    if |kept| > 0 {
      AggregateSums(kept, depth);
      forall c | 0 <= c < width
        ensures Total(Aggregate(kept, depth), c) == Total(kept, c)
      {
        AggregateTotal(kept, depth, c);
      }
    }
  }

  /** Each count column's total over the output equals its total over the
      filtered rows: grouping neither loses nor invents counts. */
  lemma PreprocessTotals(raw: seq<RawRow>, taxRank: string)
    requires DataRowsComplete(raw) && SameWidth(raw)
    requires Preprocess(raw, taxRank).Success?
    ensures var out := Preprocess(raw, taxRank).value;
      var kept := Cleaned(ParseTable(raw).value, RankIndex(taxRank).value);
      forall c :: 0 <= c < |raw[0].counts| ==> Total(out, c) == Total(kept, c)
  {
    PreprocessUnfold(raw, taxRank);
    var col := RankIndex(taxRank).value;
    CleanedUniform(ParseTable(raw).value, col, |raw[0].counts|);
    AggregateWidthSums(Cleaned(ParseTable(raw).value, col), col + 1, |raw[0].counts|);
  }

  /** Each output count is the sum, over the filtered rows on that output row's
      rank path, of the same count column. */
  lemma PreprocessSums(raw: seq<RawRow>, taxRank: string)
    requires DataRowsComplete(raw) && SameWidth(raw)
    requires Preprocess(raw, taxRank).Success?
    ensures var out := Preprocess(raw, taxRank).value;
      var kept := Cleaned(ParseTable(raw).value, RankIndex(taxRank).value);
      forall j, c :: 0 <= j < |out| && 0 <= c < |raw[0].counts| ==>
        c < |out[j].counts| && out[j].counts[c] == KeySum(kept, out[j].ranks, RankIndex(taxRank).value + 1, c)
  {
    PreprocessUnfold(raw, taxRank);
    var col := RankIndex(taxRank).value;
    CleanedUniform(ParseTable(raw).value, col, |raw[0].counts|);
    AggregateWidthSums(Cleaned(ParseTable(raw).value, col), col + 1, |raw[0].counts|);
  }

  /** A phylum-level table: its text columns are named by `labels`. */
  datatype LabelledTable = LabelledTable(labels: seq<string>, rows: seq<Row>)

  predicate WellLabelled(t: LabelledTable) {
    forall i :: 0 <= i < |t.rows| ==> |t.rows[i].ranks| == |t.labels|
  }

  /** `preprocess_abund_table_phylum(abund_table)`: the rows whose `phylum`
      cell passes, in order; fails when there is no `phylum` column. */
  function PreprocessPhylum(t: LabelledTable): (r: Result<seq<Row>, PreprocessError>)
    requires WellLabelled(t)
    ensures r.Failure? <==> "phylum" !in t.labels
    ensures r.Success? ==>
      exists col :: 0 <= col < |t.labels| && t.labels[col] == "phylum"
        && (forall i :: 0 <= i < |r.value| ==> r.value[i] in t.rows && KeepPhylum(r.value[i].ranks[col]))
        && (forall i :: 0 <= i < |t.rows| && KeepPhylum(t.rows[i].ranks[col]) ==> t.rows[i] in r.value)
  {
    match FirstIndex(t.labels, "phylum")
    case None => Failure(MissingColumn("phylum"))
    case Some(col) =>
      var kept := FilterRows(t.rows, col, PhylumFilter);
      assert forall i :: 0 <= i < |t.rows| && KeepPhylum(t.rows[i].ranks[col]) ==> KeepRow(t.rows[i], col, PhylumFilter);
      Success(kept)
  }

  /** `out` is `rows` at the strictly increasing positions `idx`, each row
      unchanged. */
  predicate SelectedAt(rows: seq<Row>, out: seq<Row>, idx: seq<nat>) {
    && |idx| == |out|
    && (forall j :: 0 <= j < |idx| ==> idx[j] < |rows| && rows[idx[j]] == out[j])
    && (forall j, k :: 0 <= j < k < |idx| ==> idx[j] < idx[k])
  }

  /** The phylum filter on column `col` only deletes rows, and keeps a row
      exactly when its cell passes. */
  lemma PhylumSubsequence(rows: seq<Row>, col: nat)
    requires forall i :: 0 <= i < |rows| ==> col < |rows[i].ranks|
    ensures exists idx: seq<nat> ::
      && SelectedAt(rows, FilterRows(rows, col, PhylumFilter), idx)
      && (forall i :: 0 <= i < |rows| ==> (KeepPhylum(rows[i].ranks[col]) <==> i in idx))
  {
    FilterRowsSubsequence(rows, col, PhylumFilter);
    var out := FilterRows(rows, col, PhylumFilter);
    var idx: seq<nat> :|
      && |idx| == |out|
      && (forall j :: 0 <= j < |idx| ==> idx[j] < |rows| && rows[idx[j]] == out[j])
      && (forall j, k :: 0 <= j < k < |idx| ==> idx[j] < idx[k])
      && (forall i :: 0 <= i < |rows| ==> (KeepRow(rows[i], col, PhylumFilter) <==> i in idx));
    assert SelectedAt(rows, out, idx);
    forall i | 0 <= i < |rows|
      ensures KeepPhylum(rows[i].ranks[col]) <==> i in idx
    {
      assert KeepRow(rows[i], col, PhylumFilter) == KeepPhylum(rows[i].ranks[col]);
    }
  }

  /** The phylum cleaning only deletes rows: the result is the input's rows at
      strictly increasing positions, unchanged, and a position is kept exactly
      when its `phylum` cell passes. */
  lemma PreprocessPhylumSubsequence(t: LabelledTable)
    requires WellLabelled(t) && PreprocessPhylum(t).Success?
    ensures var col := FirstIndex(t.labels, "phylum").value;
      exists idx: seq<nat> ::
        && SelectedAt(t.rows, PreprocessPhylum(t).value, idx)
        && (forall i :: 0 <= i < |t.rows| ==> (KeepPhylum(t.rows[i].ranks[col]) <==> i in idx))
  {
    var col := FirstIndex(t.labels, "phylum").value;
    assert PreprocessPhylum(t).value == FilterRows(t.rows, col, PhylumFilter);
    PhylumSubsequence(t.rows, col);
  }

  /** Cleaning a cleaned phylum table again changes nothing. */
  lemma PreprocessPhylumIdempotent(t: LabelledTable)
    requires WellLabelled(t) && PreprocessPhylum(t).Success?
    ensures WellLabelled(LabelledTable(t.labels, PreprocessPhylum(t).value))
    ensures PreprocessPhylum(LabelledTable(t.labels, PreprocessPhylum(t).value)) == PreprocessPhylum(t)
  {
    var col := FirstIndex(t.labels, "phylum").value;
    FilterRowsIdempotent(t.rows, col, PhylumFilter);
  }
}
