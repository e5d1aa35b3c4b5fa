/** Splitting the lineage column into the seven rank columns, dropping the
    column-sum row, and stripping the rank prefixes and brackets from every
    rank cell (`preprocess_abund_table`, first half). */
module Lineage {
  import opened Wrappers
  import opened Text
  import opened Tables

  /** The names given to the columns split from the lineage, highest rank first. */
  const RankNames: seq<string> := ["Kingdom", "Phylum", "Class", "Order", "Family", "Genus", "Species"]

  /** The tokens of a lineage: `Root`, then one `x__Name` token per rank. */
  function Tokens(raw: RawRow): seq<string> {
    Split(raw.lineage, ';')
  }

  /** The number of columns that splitting the lineage column produces: as many
      as the widest lineage has tokens (none for an empty table). */
  function SplitWidth(raw: seq<RawRow>): (w: nat)
    ensures forall i :: 0 <= i < |raw| ==> |Tokens(raw[i])| <= w
    ensures |raw| > 0 ==> exists i :: 0 <= i < |raw| && |Tokens(raw[i])| == w
    ensures |raw| == 0 ==> w == 0
  {
    if |raw| == 0 then 0
    else
      var rest := SplitWidth(raw[1..]);
      assert forall i :: 1 <= i < |raw| ==> raw[i] == raw[1..][i - 1];
      if |Tokens(raw[0])| >= rest then |Tokens(raw[0])| else rest
  }

  /** Naming the split columns fails unless there are exactly eight of them
      (`Root` and seven ranks); `tokens` is how many there were. */
  datatype ParseError = LineageWidth(tokens: nat)

  /** Every data row (all but the column-sum row 0) has a full lineage of
      eight tokens. */
  predicate DataRowsComplete(raw: seq<RawRow>) {
    forall i :: 1 <= i < |raw| ==> |Tokens(raw[i])| == 8
  }

  /** One data row: tokens 1..7 become Kingdom..Species, the counts follow. */
  function ParseRow(raw: RawRow): (row: Row)
    requires |Tokens(raw)| == 8
    ensures |row.ranks| == |RankNames| && row.counts == raw.counts
    ensures forall j :: 0 <= j < |row.ranks| ==> ';' !in row.ranks[j]
    ensures Join([Tokens(raw)[0]] + row.ranks, ';') == raw.lineage
  {
    var tokens := Tokens(raw);
    assert [tokens[0]] + tokens[1..] == tokens;
    Row(tokens[1..], raw.counts)
  }

  /** Split the lineage column, name the rank columns, and drop row 0, the
      column sums. Fails exactly when the widest lineage is not eight tokens. */
  function ParseTable(raw: seq<RawRow>): (r: Result<seq<Row>, ParseError>)
    requires DataRowsComplete(raw)
    ensures r.Failure? <==>
      |raw| == 0 || |Tokens(raw[0])| > 8 || (|raw| == 1 && |Tokens(raw[0])| != 8)
    ensures r.Success? ==> |r.value| == |raw| - 1
    ensures r.Success? ==> forall i :: 0 <= i < |r.value| ==>
      |r.value[i].ranks| == |RankNames| && r.value[i].counts == raw[i + 1].counts
  {
    var w := SplitWidth(raw);
    if w != 8 then Failure(LineageWidth(w))
    else Success(seq(|raw| - 1, i requires 0 <= i < |raw| - 1 => ParseRow(raw[i + 1])))
  }

  /** No lineage text is lost: Root and the rank cells of parsed row i, joined
      by `;`, give back the lineage of data row i + 1. */
  lemma ParseTableLineage(raw: seq<RawRow>)
    requires DataRowsComplete(raw) && ParseTable(raw).Success?
    ensures forall i :: 0 <= i < |ParseTable(raw).value| ==>
      Join([Tokens(raw[i + 1])[0]] + ParseTable(raw).value[i].ranks, ';') == raw[i + 1].lineage
  {
    var rows := ParseTable(raw).value;
    forall i | 0 <= i < |rows|
      ensures Join([Tokens(raw[i + 1])[0]] + rows[i].ranks, ';') == raw[i + 1].lineage
    {
      assert rows[i] == ParseRow(raw[i + 1]);
    }
  }

  /** `x[3:]`: the cell without its three-character rank prefix such as `p__`. */
  function DropPrefix(x: string): string {
    if |x| <= 3 then "" else x[3..]
  }

  /** One rank cell cleaned: prefix removed, then every `[` and every `]`. */
  function StripCell(x: string): (r: string)
    ensures '[' !in r && ']' !in r
    ensures |x| <= 3 ==> r == ""
  {
    var name := DeleteChar(DropPrefix(x), '[');
    DeleteCharSubset(name, ']');
    DeleteChar(name, ']')
  }

  /** A cell without brackets loses exactly its prefix: prefix and cleaned
      name together give the cell back. */
  lemma StripCellPlain(x: string)
    requires |x| > 3 && '[' !in x && ']' !in x
    ensures x == x[..3] + StripCell(x)
  {
    assert x == x[..3] + x[3..];
    assert '[' !in x[3..] && ']' !in x[3..];
    DeleteCharAbsent(x[3..], '[');
    DeleteCharAbsent(x[3..], ']');
  }

  /** A prefixed name is cleaned back to the name, its brackets removed. */
  lemma StripPrefixedName(prefix: string, name: string)
    requires |prefix| == 3
    ensures StripCell(prefix + name) == DeleteChar(DeleteChar(name, '['), ']')
  {
    assert (prefix + name)[3..] == name;
  }

  function StripRow(row: Row): (r: Row)
    ensures |r.ranks| == |row.ranks| && r.counts == row.counts
    ensures forall j :: 0 <= j < |row.ranks| ==> r.ranks[j] == StripCell(row.ranks[j])
  {
    row.(ranks := seq(|row.ranks|, j requires 0 <= j < |row.ranks| => StripCell(row.ranks[j])))
  }

  /** Every rank cell of every row cleaned; rows, their order and their counts
      unchanged. */
  function StripRanks(rows: seq<Row>): (r: seq<Row>)
    ensures |r| == |rows|
    ensures forall i :: 0 <= i < |rows| ==> r[i] == StripRow(rows[i])
  {
    seq(|rows|, i requires 0 <= i < |rows| => StripRow(rows[i]))
  }

  /** `cur` is `orig` with its first `upto` rank cells cleaned and the rest as
      they were. */
  predicate PartlyStripped(cur: Row, orig: Row, upto: nat) {
    && |cur.ranks| == |orig.ranks|
    && cur.counts == orig.counts
    && forall j :: 0 <= j < |orig.ranks| ==>
      cur.ranks[j] == if j < upto then StripCell(orig.ranks[j]) else orig.ranks[j]
  }

  /** The row with its rank cell `col` cleaned. */
  function StripCellAt(row: Row, col: nat): (r: Row)
    requires col < |row.ranks|
    ensures |r.ranks| == |row.ranks| && r.counts == row.counts
    ensures r.ranks[col] == StripCell(row.ranks[col])
    ensures forall j :: 0 <= j < |row.ranks| && j != col ==> r.ranks[j] == row.ranks[j]
  {
    row.(ranks := row.ranks[col := StripCell(row.ranks[col])])
  }

  /** Cleaning cell `col` of a row cleaned up to `col` cleans it up to `col + 1`. */
  lemma StripStep(cur: Row, orig: Row, col: nat)
    requires PartlyStripped(cur, orig, col) && col < |cur.ranks|
    ensures PartlyStripped(StripCellAt(cur, col), orig, col + 1)
  {
  }

  /** A row cleaned in all its cells is `StripRow` of the original. */
  lemma StripDone(cur: Row, orig: Row)
    requires PartlyStripped(cur, orig, |orig.ranks|)
    ensures cur == StripRow(orig)
  {
    assert cur.ranks == StripRow(orig).ranks;
  }

  /** One pass of the loop: rank column `col` cleaned in every row, in place. */
  method StripColumn(table: array<Row>, col: nat)
    requires forall k :: 0 <= k < table.Length ==> col < |table[k].ranks|
    modifies table
    ensures forall k :: 0 <= k < table.Length ==> table[k] == StripCellAt(old(table[k]), col)
  {
    for i := 0 to table.Length
      invariant forall k :: 0 <= k < i ==> table[k] == StripCellAt(old(table[k]), col)
      invariant forall k :: i <= k < table.Length ==> table[k] == old(table[k])
    {
      table[i] := StripCellAt(table[i], col);
    }
  }

  /** The cleaning loop as the script runs it: column by column, each rank
      column of the table rewritten in place. */
  method StripRankColumns(table: array<Row>)
    requires forall i :: 0 <= i < table.Length ==> |table[i].ranks| == |RankNames|
    modifies table
    ensures table[..] == StripRanks(old(table[..]))
  {
    ghost var orig := table[..];
    for col := 0 to 7
      invariant forall k :: 0 <= k < |orig| ==> |orig[k].ranks| == 7 && PartlyStripped(table[k], orig[k], col)
    {
      ghost var before := table[..];
      StripColumn(table, col);
      forall k | 0 <= k < |orig|
        ensures PartlyStripped(table[k], orig[k], col + 1)
      {
        StripStep(before[k], orig[k], col);
      }
    }
    forall k | 0 <= k < |orig|
      ensures table[k] == StripRanks(orig)[k]
    {
      StripDone(table[k], orig[k]);
    }
  }
}
