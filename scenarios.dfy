/** What the rank filter and the group-by-sum of `preprocess_abund_table` do,
    at the phylum, to three cleaned rows: two that agree down to the phylum and
    part at the class, and one whose phylum the filter rejects. */
module Scenarios {
  import Seqs
  import opened Tables
  import opened TaxonFilter
  import opened Aggregation

  /** The rank cells of a cleaned row resolved down to the class. */
  function ClassRanks(kingdom: string, phylum: string, cls: string): seq<string> {
    [kingdom, phylum, cls, "", "", "", ""]
  }

  /** The rejected row is dropped, and the two rows that share Kingdom and
      Phylum become one row holding that pair and their summed counts. */
  lemma PhylumMerge(k: string, p: string, q: string, c1: string, c2: string, a: seq<nat>, b: seq<nat>, x: seq<nat>)
    requires KeepTaxon(p) && !KeepTaxon(q)
    requires |a| == |b| == |x|
    ensures var rows := [Row(ClassRanks(k, p, c1), a), Row(ClassRanks(k, p, c2), b), Row(ClassRanks(k, q, ""), x)];
      && Uniform(FilterRows(rows, 1, RankFilter), 2)
      && Aggregate(FilterRows(rows, 1, RankFilter), 2) == [Row([k, p], AddCounts(b, a))]
  {
    var rows := [Row(ClassRanks(k, p, c1), a), Row(ClassRanks(k, p, c2), b), Row(ClassRanks(k, q, ""), x)];
    var keep := (row: Row) => KeepRow(row, 1, RankFilter);
    assert keep(rows[0]) && keep(rows[1]) && !keep(rows[2]);
    assert Seqs.Filter(rows[2..], keep) == [] by {
      assert rows[2..][1..] == [];
    }
    assert rows[1..][1..] == rows[2..];
    assert Seqs.Filter(rows[1..], keep) == [rows[1]];
    var kept := FilterRows(rows, 1, RankFilter);
    assert kept == [rows[0], rows[1]];
    assert Key(rows[0], 2) == [k, p] && Key(rows[1], 2) == [k, p];
    assert kept[1..] == [rows[1]] && kept[1..][1..] == [];
    assert Aggregate(kept[1..], 2) == [Row([k, p], b)];
    assert Insert([Row([k, p], b)], [k, p], a) == [Row([k, p], AddCounts(b, a))];
  }

  lemma ProteobacteriaNotTA06()
    ensures KeepTaxon("Proteobacteria") && !KeepTaxon("TA06")
  {
    ProperExample();
    UnofficialExamples();
  }

  /** Two Proteobacteria classes merge at the phylum; the TA06 row is dropped. */
  lemma ProteobacteriaMerge()
    ensures var rows := [ Row(ClassRanks("Bacteria", "Proteobacteria", "Gammaproteobacteria"), [3, 1]),
                          Row(ClassRanks("Bacteria", "Proteobacteria", "Alphaproteobacteria"), [2, 4]),
                          Row(ClassRanks("Bacteria", "TA06", ""), [7, 7]) ];
      && Uniform(FilterRows(rows, 1, RankFilter), 2)
      && Aggregate(FilterRows(rows, 1, RankFilter), 2) == [Row(["Bacteria", "Proteobacteria"], [5, 5])]
  {
    ProteobacteriaNotTA06();
    PhylumMerge("Bacteria", "Proteobacteria", "TA06", "Gammaproteobacteria", "Alphaproteobacteria", [3, 1], [2, 4], [7, 7]);
    assert AddCounts([2, 4], [3, 1]) == [5, 5];
  }
}
