/** The row filters of `preprocess_abund_table` (on the chosen rank column) and
    `preprocess_abund_table_phylum` (on the `phylum` column): the tests each
    cell must pass, modelled after the regular expressions as Python's `re`
    reads them, and the order-preserving row selection. */
module TaxonFilter {
  import opened Text
  import opened Seqs
  import opened Tables

  /** `$` without MULTILINE: the end of the text, or just before a newline that ends it. */
  predicate AtEnd(v: string, k: nat) {
    k == |v| || (k + 1 == |v| && v[k] == '\n')
  }

  predicate DigitsAndHyphens(s: string) {
    forall i :: 0 <= i < |s| ==> IsDigit(s[i]) || s[i] == '-'
  }

  /** The alternative `^[A-Z]{2,}[0-9-]*$`: a code of capitals followed only by
      digits and hyphens, such as `TA06` or `WS1`. */
  predicate CapitalCode(v: string) {
    exists k, m :: 2 <= k <= m <= |v| && AllUpper(v[..k]) && DigitsAndHyphens(v[k..m]) && AtEnd(v, m)
  }

  /** The alternative `^[A-Z]{2,}`: the text starts with two capitals. */
  predicate TwoCapitalsFirst(v: string) {
    |v| >= 2 && IsUpper(v[0]) && IsUpper(v[1])
  }

  /** `str.contains("^[A-Z]{2,}[0-9-]*$|.*-.*|^[A-Z]{2,}")`, searched anywhere in
      the cell; the middle alternative finds any hyphen. */
  predicate UnofficialName(v: string) {
    CapitalCode(v) || '-' in v || TwoCapitalsFirst(v)
  }

  /** The search pattern reduces to: a hyphen somewhere, or two leading capitals. */
  lemma UnofficialNameIff(v: string)
    ensures UnofficialName(v) <==> '-' in v || TwoCapitalsFirst(v)
  {
    if CapitalCode(v) {
      var k, m :| 2 <= k <= m <= |v| && AllUpper(v[..k]) && DigitsAndHyphens(v[k..m]) && AtEnd(v, m);
      assert v[..k][0] == v[0] && v[..k][1] == v[1];
    }
  }

  /** `str.match(r'^[A-Za-z]+(?![\d_])$')`, anchored at the start: some letters
      from the start, not followed by a digit or an underscore, then `$`. */
  predicate ProperNameMatch(v: string) {
    exists k :: 1 <= k <= |v| && AllLetters(v[..k]) && (k < |v| ==> !(IsDigit(v[k]) || v[k] == '_')) && AtEnd(v, k)
  }

  /** Letters only, allowing the one trailing newline that `$` lets through. */
  predicate LettersOnly(v: string) {
    || (|v| > 0 && AllLetters(v))
    || (|v| > 1 && v[|v| - 1] == '\n' && AllLetters(v[..|v| - 1]))
  }

  /** The match pattern accepts exactly the non-empty letters-only texts (with at
      most a trailing newline). */
  lemma ProperNameMatchIff(v: string)
    ensures ProperNameMatch(v) <==> LettersOnly(v)
  {
    if ProperNameMatch(v) {
      var k :| 1 <= k <= |v| && AllLetters(v[..k]) && (k < |v| ==> !(IsDigit(v[k]) || v[k] == '_')) && AtEnd(v, k);
      if k == |v| {
        assert v[..k] == v;
      }
    }
    if |v| > 0 && AllLetters(v) {
      assert v[..|v|] == v;
      assert AtEnd(v, |v|);
    } else if |v| > 1 && v[|v| - 1] == '\n' && AllLetters(v[..|v| - 1]) {
      assert AtEnd(v, |v| - 1);
    }
  }

  /** The tests `preprocess_abund_table` applies to the chosen rank's cell: not
      blank, not `Unassigned`/`unclassified`, no `Candidatus`, `candidate` or
      `mixed`, not an unofficial code, a proper name, and not all lower case. */
  predicate KeepTaxon(v: string) {
    && !IsBlank(v)
    && v != "Unassigned" && v != "unclassified"
    && !Contains(v, "Candidatus") && !Contains(v, "candidate") && !Contains(v, "mixed")
    && !UnofficialName(v)
    && ProperNameMatch(v)
    && !IsLowerCase(v)
  }

  /** The tests `preprocess_abund_table_phylum` applies to the `phylum` cell:
      the same, except that only the empty text counts as blank and `mixed` is
      not tested. */
  predicate KeepPhylum(v: string) {
    && v != ""
    && v != "Unassigned" && v != "unclassified"
    && !Contains(v, "Candidatus") && !Contains(v, "candidate")
    && !UnofficialName(v)
    && ProperNameMatch(v)
    && !IsLowerCase(v)
  }

  /** The shape of a retained name: letters only, not two leading capitals, and
      at least one capital. */
  predicate NameShape(v: string) {
    LettersOnly(v) && !TwoCapitalsFirst(v) && HasUpper(v)
  }

  lemma LettersOnlyNotBlank(v: string)
    requires LettersOnly(v)
    ensures !IsBlank(v) && '-' !in v
  {
    assert IsLetter(v[0]);
    forall i | 0 <= i < |v|
      ensures v[i] != '-'
    {
      if AllLetters(v) {
        assert IsLetter(v[i]);
      } else if i < |v| - 1 {
        assert v[..|v| - 1][i] == v[i];
      }
    }
  }

  lemma LettersOnlyCaseIff(v: string)
    requires LettersOnly(v)
    ensures IsLowerCase(v) <==> !HasUpper(v)
  {
    if !HasUpper(v) {
      assert IsLetter(v[0]) && !IsUpper(v[0]);
    }
  }

  /** What the full filter keeps, stated directly: a name of the retained shape
      that is not `Unassigned` and holds none of `Candidatus`, `candidate` and
      `mixed`. The blank and `unclassified` tests never decide anything beyond
      the shape. */
  lemma KeepTaxonIff(v: string)
    ensures KeepTaxon(v) <==>
      NameShape(v) && v != "Unassigned"
      && !Contains(v, "Candidatus") && !Contains(v, "candidate") && !Contains(v, "mixed")
  {
    UnofficialNameIff(v);
    ProperNameMatchIff(v);
    if LettersOnly(v) {
      LettersOnlyNotBlank(v);
      LettersOnlyCaseIff(v);
      if v == "unclassified" {
        assert !HasUpper(v);
      }
    }
  }

  /** The two filters differ only in the `mixed` test. */
  lemma KeepTaxonVersusPhylum(v: string)
    ensures KeepTaxon(v) <==> KeepPhylum(v) && !Contains(v, "mixed")
  {
    ProperNameMatchIff(v);
    if LettersOnly(v) {
      LettersOnlyNotBlank(v);
    }
  }

  /** The codes the scripts' comments name as unofficial are rejected by both filters. */
  lemma UnofficialExamples()
    ensures !KeepTaxon("TA06") && !KeepTaxon("WPS-2") && !KeepTaxon("WS1") && !KeepTaxon("AC1")
    ensures !KeepPhylum("TA06") && !KeepPhylum("WPS-2") && !KeepPhylum("WS1") && !KeepPhylum("AC1")
  {
    assert TwoCapitalsFirst("TA06") && TwoCapitalsFirst("WPS-2") && TwoCapitalsFirst("WS1") && TwoCapitalsFirst("AC1");
  }

  /** A proper phylum name is kept by both filters. */
  lemma ProperExample()
    ensures KeepTaxon("Proteobacteria") && KeepPhylum("Proteobacteria")
  {
    var name := "Proteobacteria";
    assert HasUpper(name) by { assert IsUpper(name[0]); }
    assert !TwoCapitalsFirst(name);
    assert AllLetters(name);
    assert 'C' !in name && 'd' !in name && 'm' !in name;
    ShapeKept(name);
  }

  /** A name of the retained shape lacking a character of each excluded word
      passes both filters. */
  lemma ShapeKept(v: string)
    requires NameShape(v) && 'C' !in v && 'd' !in v && 'm' !in v
    ensures KeepTaxon(v) && KeepPhylum(v)
  {
    assert "Candidatus"[0] == 'C' && "candidate"[5] == 'd' && "mixed"[0] == 'm';
    assert "Unassigned"[9] == 'd';
    MissingChar(v, "Candidatus", 'C');
    MissingChar(v, "candidate", 'd');
    MissingChar(v, "mixed", 'm');
    KeepTaxonIff(v);
    KeepTaxonVersusPhylum(v);
  }

  /** Which filter a table goes through. */
  datatype Variant = RankFilter | PhylumFilter

  /** The row passes its variant's tests on text column `col`. */
  predicate KeepRow(row: Row, col: nat, variant: Variant) {
    col < |row.ranks| &&
    match variant
    case RankFilter => KeepTaxon(row.ranks[col])
    case PhylumFilter => KeepPhylum(row.ranks[col])
  }

  /** The chain of boolean-mask selections on column `col`, then `reset_index`:
      the rows that pass, in their original order. */
  function FilterRows(rows: seq<Row>, col: nat, variant: Variant): (r: seq<Row>)
    ensures |r| <= |rows|
    ensures forall i :: 0 <= i < |r| ==> r[i] in rows && KeepRow(r[i], col, variant)
    ensures forall i :: 0 <= i < |rows| && KeepRow(rows[i], col, variant) ==> rows[i] in r
  {
    Filter(rows, (row: Row) => KeepRow(row, col, variant))
  }

  /** Filtering an already filtered table again changes nothing. */
  lemma FilterRowsIdempotent(rows: seq<Row>, col: nat, variant: Variant)
    ensures FilterRows(FilterRows(rows, col, variant), col, variant) == FilterRows(rows, col, variant)
  {
    FilterIdempotent(rows, (row: Row) => KeepRow(row, col, variant));
  }

  /** The filter only deletes rows: the kept rows appear unchanged, in their
      original order, and they are exactly the rows that pass. */
  lemma FilterRowsSubsequence(rows: seq<Row>, col: nat, variant: Variant)
    ensures exists idx: seq<nat> ::
      && |idx| == |FilterRows(rows, col, variant)|
      && (forall j :: 0 <= j < |idx| ==> idx[j] < |rows| && rows[idx[j]] == FilterRows(rows, col, variant)[j])
      && (forall j, k :: 0 <= j < k < |idx| ==> idx[j] < idx[k])
      && (forall i :: 0 <= i < |rows| ==> (KeepRow(rows[i], col, variant) <==> i in idx))
  {
    var keep := (row: Row) => KeepRow(row, col, variant);
    var idx := FilterPositions(rows, keep);
    assert FilterRows(rows, col, variant) == Filter(rows, keep);
    assert forall i :: 0 <= i < |rows| ==> (KeepRow(rows[i], col, variant) <==> keep(rows[i]));
  }

  /** Every row that survives the full filter has, at the filtered rank, a name
      of the retained shape that is none of the rejected values. */
  lemma FilteredNames(rows: seq<Row>, col: nat)
    ensures forall i :: 0 <= i < |FilterRows(rows, col, RankFilter)| ==>
      var v := FilterRows(rows, col, RankFilter)[i].ranks[col];
      && NameShape(v) && !IsBlank(v)
      && v != "Unassigned" && v != "unclassified"
      && !Contains(v, "Candidatus") && !Contains(v, "candidate") && !Contains(v, "mixed")
  {
    forall i | 0 <= i < |FilterRows(rows, col, RankFilter)| {
      KeepTaxonIff(FilterRows(rows, col, RankFilter)[i].ranks[col]);
    }
  }
}
