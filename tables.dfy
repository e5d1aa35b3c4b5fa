/** The rows of an abundance table: text cells (the lineage, or the rank
    columns split from it) followed by one non-negative count per analysis. */
module Tables {

  /** A row as read from the file: the `;`-separated lineage in column 0, then
      the counts. */
  datatype RawRow = RawRow(lineage: string, counts: seq<nat>)

  /** A row whose text columns are rank names (Kingdom, Phylum, ... in order),
      followed by the counts. */
  datatype Row = Row(ranks: seq<string>, counts: seq<nat>)

  /** The count of `row` in column `c`, 0 where the row has no such column. */
  function Count(row: Row, c: nat): nat {
    if c < |row.counts| then row.counts[c] else 0
  }

  /** The total of count column `c` over all rows. */
  function Total(rows: seq<Row>, c: nat): nat {
    if |rows| == 0 then 0 else Count(rows[0], c) + Total(rows[1..], c)
  }
}
