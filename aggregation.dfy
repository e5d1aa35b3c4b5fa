/** `groupby(Kingdom..tax_rank).sum().reset_index()`: one row per distinct rank
    path, in ascending order of the paths, holding the column-wise sums of the
    counts of the rows on that path. */
module Aggregation {
  import opened Seqs
  import opened Tables

  /** Characters compare by code point. */
  predicate CharLess(x: char, y: char) {
    x < y
  }

  /** Python's string order: lexicographic by code point. */
  predicate StrLess(a: string, b: string) {
    LexLess(a, b, CharLess)
  }

  /** Python's tuple order on rank paths, the order the groups come out in. */
  predicate KeyLess(a: seq<string>, b: seq<string>) {
    LexLess(a, b, StrLess)
  }

  lemma StrLessOrder()
    ensures StrictTotalOrder(StrLess)
  {
    assert StrictTotalOrder(CharLess);
    forall a: string
      ensures !StrLess(a, a)
    {
      LexLessIrreflexive(a, CharLess);
    }
    forall a: string, b: string, c: string | StrLess(a, b) && StrLess(b, c)
      ensures StrLess(a, c)
    {
      LexLessTransitive(a, b, c, CharLess);
    }
    forall a: string, b: string | a != b
      ensures StrLess(a, b) || StrLess(b, a)
    {
      LexLessTotal(a, b, CharLess);
    }
  }

  lemma KeyLessIrreflexive(a: seq<string>)
    ensures !KeyLess(a, a)
  {
    StrLessOrder();
    LexLessIrreflexive(a, StrLess);
  }

  lemma KeyLessTransitive(a: seq<string>, b: seq<string>, c: seq<string>)
    requires KeyLess(a, b) && KeyLess(b, c)
    ensures KeyLess(a, c)
  {
    StrLessOrder();
    LexLessTransitive(a, b, c, StrLess);
  }

  lemma KeyLessTotal(a: seq<string>, b: seq<string>)
    requires a != b
    ensures KeyLess(a, b) || KeyLess(b, a)
  {
    StrLessOrder();
    LexLessTotal(a, b, StrLess);
  }

  /** Rank paths are compared as Python compares tuples of strings: a strict total order. */
  lemma KeyLessOrder()
    ensures StrictTotalOrder(KeyLess)
  {
    StrLessOrder();
    forall a: seq<string>
      ensures !KeyLess(a, a)
    {
      LexLessIrreflexive(a, StrLess);
    }
    forall a: seq<string>, b: seq<string>, c: seq<string> | KeyLess(a, b) && KeyLess(b, c)
      ensures KeyLess(a, c)
    {
      LexLessTransitive(a, b, c, StrLess);
    }
    forall a: seq<string>, b: seq<string> | a != b
      ensures KeyLess(a, b) || KeyLess(b, a)
    {
      LexLessTotal(a, b, StrLess);
    }
  }

  /** The grouping key of a row: its first `depth` rank cells. */
  function Key(row: Row, depth: nat): seq<string>
    requires depth <= |row.ranks|
  {
    row.ranks[..depth]
  }

  /** Every row has at least `depth` rank cells and as many counts as the first. */
  predicate Uniform(rows: seq<Row>, depth: nat) {
    forall i :: 0 <= i < |rows| ==> depth <= |rows[i].ranks| && |rows[i].counts| == |rows[0].counts|
  }

  /** Group rows in strictly ascending key order, hence no key twice. */
  predicate Sorted(groups: seq<Row>) {
    forall i, j :: 0 <= i < j < |groups| ==> KeyLess(groups[i].ranks, groups[j].ranks)
  }

  /** The keys of a list of groups. */
  function KeysOf(groups: seq<Row>): set<seq<string>> {
    if |groups| == 0 then {} else {groups[0].ranks} + KeysOf(groups[1..])
  }

  /** The distinct keys of a table. */
  function RowKeys(rows: seq<Row>, depth: nat): set<seq<string>>
    requires forall i :: 0 <= i < |rows| ==> depth <= |rows[i].ranks|
  {
    if |rows| == 0 then {} else {Key(rows[0], depth)} + RowKeys(rows[1..], depth)
  }

  /** The count in column `c` of the first group with key `key`, 0 if none. */
  function GroupCount(groups: seq<Row>, key: seq<string>, c: nat): nat {
    if |groups| == 0 then 0
    else if groups[0].ranks == key then Count(groups[0], c)
    else GroupCount(groups[1..], key, c)
  }

  /** The sum of column `c` over the rows whose key is `key`. */
  function KeySum(rows: seq<Row>, key: seq<string>, depth: nat, c: nat): nat
    requires forall i :: 0 <= i < |rows| ==> depth <= |rows[i].ranks|
  {
    if |rows| == 0 then 0
    else (if Key(rows[0], depth) == key then Count(rows[0], c) else 0) + KeySum(rows[1..], key, depth, c)
  }

  function AddCounts(a: seq<nat>, b: seq<nat>): (r: seq<nat>)
    requires |a| == |b|
    ensures |r| == |a| && forall c :: 0 <= c < |a| ==> r[c] == a[c] + b[c]
  {
    seq(|a|, c requires 0 <= c < |a| => a[c] + b[c])
  }

  /** Add one row's counts to the group with its key, or start that group at its
      place in key order. */
  function Insert(groups: seq<Row>, key: seq<string>, counts: seq<nat>): (r: seq<Row>)
    requires forall i :: 0 <= i < |groups| ==> |groups[i].counts| == |counts|
    ensures forall i :: 0 <= i < |r| ==> |r[i].counts| == |counts|
    ensures forall i :: 0 <= i < |r| ==> r[i].ranks == key || r[i].ranks in KeysOf(groups)
  {
    KeysOfIndex(groups);
    if |groups| == 0 then [Row(key, counts)]
    else if groups[0].ranks == key then [Row(key, AddCounts(groups[0].counts, counts))] + groups[1..]
    else if KeyLess(key, groups[0].ranks) then [Row(key, counts)] + groups
    else
      var rest := Insert(groups[1..], key, counts);
      assert KeysOf(groups[1..]) <= KeysOf(groups);
      [groups[0]] + rest
  }

  /** The group-by-sum, one row at a time. */
  function Aggregate(rows: seq<Row>, depth: nat): (r: seq<Row>)
    requires Uniform(rows, depth)
    ensures |rows| > 0 ==> forall i :: 0 <= i < |r| ==> |r[i].counts| == |rows[0].counts|
  {
    if |rows| == 0 then []
    else
      var rest := Aggregate(rows[1..], depth);
      assert |rows| > 1 ==> rows[1..][0] == rows[1];
      Insert(rest, Key(rows[0], depth), rows[0].counts)
  }

  /** A key is among the keys of a group list exactly when some group has it. */
  lemma {:induction false} KeysOfIndex(groups: seq<Row>)
    ensures forall k :: k in KeysOf(groups) <==> exists i :: 0 <= i < |groups| && groups[i].ranks == k
  {
    if |groups| > 0 {
      KeysOfIndex(groups[1..]);
      forall k | k in KeysOf(groups)
        ensures exists i :: 0 <= i < |groups| && groups[i].ranks == k
      {
        if k != groups[0].ranks {
          assert k in KeysOf(groups[1..]);
          var i :| 0 <= i < |groups[1..]| && groups[1..][i].ranks == k;
          assert groups[i + 1].ranks == k;
        }
      }
      forall k, i | 0 <= i < |groups| && groups[i].ranks == k
        ensures k in KeysOf(groups)
      {
        if i > 0 {
          assert groups[1..][i - 1].ranks == k;
        }
      }
    }
  }

  /** A key is a key of the table exactly when some row has it. */
  lemma {:induction false} RowKeysIndex(rows: seq<Row>, depth: nat)
    requires forall i :: 0 <= i < |rows| ==> depth <= |rows[i].ranks|
    ensures forall k :: k in RowKeys(rows, depth) <==> exists i :: 0 <= i < |rows| && Key(rows[i], depth) == k
  {
    if |rows| > 0 {
      RowKeysIndex(rows[1..], depth);
      forall k | k in RowKeys(rows, depth)
        ensures exists i :: 0 <= i < |rows| && Key(rows[i], depth) == k
      {
        if k != Key(rows[0], depth) {
          assert k in RowKeys(rows[1..], depth);
          var i :| 0 <= i < |rows[1..]| && Key(rows[1..][i], depth) == k;
          assert Key(rows[i + 1], depth) == k;
        }
      }
      forall k, i | 0 <= i < |rows| && Key(rows[i], depth) == k
        ensures k in RowKeys(rows, depth)
      {
        if i > 0 {
          assert Key(rows[1..][i - 1], depth) == k;
        }
      }
    }
  }

  /** A key absent from the groups has count 0. */
  lemma {:induction false} GroupCountAbsent(groups: seq<Row>, key: seq<string>, c: nat)
    requires key !in KeysOf(groups)
    ensures GroupCount(groups, key, c) == 0
  {
    if |groups| > 0 {
      GroupCountAbsent(groups[1..], key, c);
    }
  }

  /** In sorted groups, the count found for a group's key is that group's count. */
  lemma {:induction false} GroupCountAt(groups: seq<Row>, j: nat, c: nat)
    requires Sorted(groups) && j < |groups|
    ensures GroupCount(groups, groups[j].ranks, c) == Count(groups[j], c)
  {
    if j > 0 {
      KeyLessIrreflexive(groups[0].ranks);
      assert KeyLess(groups[0].ranks, groups[j].ranks);
      assert groups[0].ranks != groups[j].ranks;
      assert groups[1..][j - 1] == groups[j];
      GroupCountAt(groups[1..], j - 1, c);
    }
  }

  /** Inserting adds exactly the inserted key. */
  lemma {:induction false} InsertKeys(groups: seq<Row>, key: seq<string>, counts: seq<nat>)
    requires forall i :: 0 <= i < |groups| ==> |groups[i].counts| == |counts|
    ensures KeysOf(Insert(groups, key, counts)) == KeysOf(groups) + {key}
  {
    var r := Insert(groups, key, counts);
    if |groups| == 0 {
    } else if groups[0].ranks == key {
      assert r[1..] == groups[1..];
    } else if KeyLess(key, groups[0].ranks) {
      assert r[1..] == groups;
    } else {
      InsertKeys(groups[1..], key, counts);
      assert r[1..] == Insert(groups[1..], key, counts);
    }
  }

  /** Inserting keeps the groups in strictly ascending key order. */
  lemma {:induction false} InsertSorted(groups: seq<Row>, key: seq<string>, counts: seq<nat>)
    requires forall i :: 0 <= i < |groups| ==> |groups[i].counts| == |counts|
    requires Sorted(groups)
    ensures Sorted(Insert(groups, key, counts))
  {
    var r := Insert(groups, key, counts);
    if |groups| == 0 {
    } else if groups[0].ranks == key {
      assert r[1..] == groups[1..];
      assert forall i :: 0 <= i < |r| ==> r[i].ranks == groups[i].ranks;
    } else if KeyLess(key, groups[0].ranks) {
      assert r[1..] == groups;
      forall i, j | 0 <= i < j < |r|
        ensures KeyLess(r[i].ranks, r[j].ranks)
      {
        if i == 0 && j > 1 {
          KeyLessTransitive(key, groups[0].ranks, groups[j - 1].ranks);
        }
      }
    } else {
      var rest := Insert(groups[1..], key, counts);
      InsertSorted(groups[1..], key, counts);
      assert r == [groups[0]] + rest && r[1..] == rest;
      KeyLessTotal(key, groups[0].ranks);
      forall j | 0 < j < |r|
        ensures KeyLess(r[0].ranks, r[j].ranks)
      {
        if rest[j - 1].ranks != key {
          KeysOfIndex(groups[1..]);
          assert rest[j - 1].ranks in KeysOf(groups[1..]);
          var m :| 0 <= m < |groups[1..]| && groups[1..][m].ranks == rest[j - 1].ranks;
          assert KeyLess(groups[0].ranks, groups[m + 1].ranks);
        }
      }
    }
  }

  /** Inserting adds the row's counts to the count of its key and to no other. */
  lemma {:induction false} InsertGroupCount(groups: seq<Row>, key: seq<string>, counts: seq<nat>, k: seq<string>, c: nat)
    requires forall i :: 0 <= i < |groups| ==> |groups[i].counts| == |counts|
    requires Sorted(groups) && c < |counts|
    ensures GroupCount(Insert(groups, key, counts), k, c) == GroupCount(groups, k, c) + (if k == key then counts[c] else 0)
  {
    var r := Insert(groups, key, counts);
    if |groups| == 0 {
    } else if groups[0].ranks == key {
      assert r[1..] == groups[1..];
    } else if KeyLess(key, groups[0].ranks) {
      assert r[1..] == groups;
      if k == key {
        KeysOfIndex(groups);
        forall i | 0 <= i < |groups|
          ensures groups[i].ranks != key
        {
          if i > 0 {
            KeyLessTransitive(key, groups[0].ranks, groups[i].ranks);
          }
          KeyLessIrreflexive(key);
        }
        GroupCountAbsent(groups, key, c);
      }
    } else {
      assert r[1..] == Insert(groups[1..], key, counts);
      InsertGroupCount(groups[1..], key, counts, k, c);
    }
  }

  /** Inserting adds the row's counts to the column totals. */
  lemma {:induction false} InsertTotal(groups: seq<Row>, key: seq<string>, counts: seq<nat>, c: nat)
    requires forall i :: 0 <= i < |groups| ==> |groups[i].counts| == |counts|
    requires c < |counts|
    ensures Total(Insert(groups, key, counts), c) == Total(groups, c) + counts[c]
  {
    var r := Insert(groups, key, counts);
    if |groups| == 0 {
    } else if groups[0].ranks == key {
      assert r[1..] == groups[1..];
    } else if KeyLess(key, groups[0].ranks) {
      assert r[1..] == groups;
    } else {
      assert r[1..] == Insert(groups[1..], key, counts);
      InsertTotal(groups[1..], key, counts, c);
    }
  }

  /** The groups come out in strictly ascending key order. */
  lemma {:induction false} AggregateSorted(rows: seq<Row>, depth: nat)
    requires Uniform(rows, depth)
    ensures Sorted(Aggregate(rows, depth))
  {
    if |rows| > 0 {
      AggregateSorted(rows[1..], depth);
      InsertSorted(Aggregate(rows[1..], depth), Key(rows[0], depth), rows[0].counts);
    }
  }

  /** The group keys are the distinct keys of the table. */
  lemma {:induction false} AggregateKeySet(rows: seq<Row>, depth: nat)
    requires Uniform(rows, depth)
    ensures KeysOf(Aggregate(rows, depth)) == RowKeys(rows, depth)
  {
    if |rows| > 0 {
      AggregateKeySet(rows[1..], depth);
      InsertKeys(Aggregate(rows[1..], depth), Key(rows[0], depth), rows[0].counts);
    }
  }

  /** Each key's count is the sum of its rows' counts. */
  lemma {:induction false} AggregateGroupCount(rows: seq<Row>, depth: nat, k: seq<string>, c: nat)
    requires Uniform(rows, depth) && |rows| > 0 && c < |rows[0].counts|
    ensures GroupCount(Aggregate(rows, depth), k, c) == KeySum(rows, k, depth, c)
  {
    var rest := Aggregate(rows[1..], depth);
    AggregateSorted(rows[1..], depth);
    InsertGroupCount(rest, Key(rows[0], depth), rows[0].counts, k, c);
    if |rows| > 1 {
      AggregateGroupCount(rows[1..], depth, k, c);
    }
  }

  /** Summing within groups keeps every column's total. */
  lemma {:induction false} AggregateTotal(rows: seq<Row>, depth: nat, c: nat)
    requires Uniform(rows, depth) && |rows| > 0 && c < |rows[0].counts|
    ensures Total(Aggregate(rows, depth), c) == Total(rows, c)
  {
    InsertTotal(Aggregate(rows[1..], depth), Key(rows[0], depth), rows[0].counts, c);
    if |rows| > 1 {
      AggregateTotal(rows[1..], depth, c);
    }
  }

  /** No two output rows share a rank path, and the paths ascend. */
  lemma AggregateKeysUnique(rows: seq<Row>, depth: nat)
    requires Uniform(rows, depth)
    ensures forall i, j :: 0 <= i < j < |Aggregate(rows, depth)| ==>
      KeyLess(Aggregate(rows, depth)[i].ranks, Aggregate(rows, depth)[j].ranks)
      && Aggregate(rows, depth)[i].ranks != Aggregate(rows, depth)[j].ranks
  {
    AggregateSorted(rows, depth);
    var r := Aggregate(rows, depth);
    forall i, j | 0 <= i < j < |r|
      ensures r[i].ranks != r[j].ranks
    {
      KeyLessIrreflexive(r[i].ranks);
    }
  }

  /** Every output rank path is the path of some input row. */
  lemma AggregateKeysFromRows(rows: seq<Row>, depth: nat)
    requires Uniform(rows, depth)
    ensures forall j :: 0 <= j < |Aggregate(rows, depth)| ==>
      exists i :: 0 <= i < |rows| && Key(rows[i], depth) == Aggregate(rows, depth)[j].ranks
  {
    var r := Aggregate(rows, depth);
    AggregateKeySet(rows, depth);
    KeysOfIndex(r);
    RowKeysIndex(rows, depth);
    forall j | 0 <= j < |r|
      ensures exists i :: 0 <= i < |rows| && Key(rows[i], depth) == r[j].ranks
    {
      assert r[j].ranks in KeysOf(r);
      assert r[j].ranks in RowKeys(rows, depth);
    }
  }

  /** Every input row's rank path has an output row. */
  lemma AggregateKeysCoverRows(rows: seq<Row>, depth: nat)
    requires Uniform(rows, depth)
    ensures forall i :: 0 <= i < |rows| ==>
      exists j :: 0 <= j < |Aggregate(rows, depth)| && Aggregate(rows, depth)[j].ranks == Key(rows[i], depth)
  {
    var r := Aggregate(rows, depth);
    AggregateKeySet(rows, depth);
    KeysOfIndex(r);
    RowKeysIndex(rows, depth);
    forall i | 0 <= i < |rows|
      ensures exists j :: 0 <= j < |r| && r[j].ranks == Key(rows[i], depth)
    {
      assert Key(rows[i], depth) in RowKeys(rows, depth);
      assert Key(rows[i], depth) in KeysOf(r);
    }
  }

  /** Each cell of an output rank path is that cell of some input row. */
  lemma AggregateKeysAt(rows: seq<Row>, depth: nat, col: nat)
    requires Uniform(rows, depth) && col < depth
    ensures forall j :: 0 <= j < |Aggregate(rows, depth)| ==>
      col < |Aggregate(rows, depth)[j].ranks|
      && exists i :: 0 <= i < |rows| && rows[i].ranks[col] == Aggregate(rows, depth)[j].ranks[col]
  {
    var r := Aggregate(rows, depth);
    AggregateKeysFromRows(rows, depth);
    forall j | 0 <= j < |r|
      ensures col < |r[j].ranks| && exists i :: 0 <= i < |rows| && rows[i].ranks[col] == r[j].ranks[col]
    {
      var i :| 0 <= i < |rows| && Key(rows[i], depth) == r[j].ranks;
      assert rows[i].ranks[col] == Key(rows[i], depth)[col];
    }
  }

  /** Every output row holds exactly the `depth` grouping columns. */
  lemma AggregateKeyLength(rows: seq<Row>, depth: nat)
    requires Uniform(rows, depth)
    ensures forall j :: 0 <= j < |Aggregate(rows, depth)| ==> |Aggregate(rows, depth)[j].ranks| == depth
  {
    var r := Aggregate(rows, depth);
    AggregateKeysFromRows(rows, depth);
    forall j | 0 <= j < |r|
      ensures |r[j].ranks| == depth
    {
      var i :| 0 <= i < |rows| && Key(rows[i], depth) == r[j].ranks;
      assert |Key(rows[i], depth)| == depth;
    }
  }

  /** Each output count is the sum of that column over the input rows on the
      output row's rank path. */
  lemma AggregateSums(rows: seq<Row>, depth: nat)
    requires Uniform(rows, depth) && |rows| > 0
    ensures forall j :: 0 <= j < |Aggregate(rows, depth)| ==>
      |Aggregate(rows, depth)[j].counts| == |rows[0].counts|
      && forall c :: 0 <= c < |rows[0].counts| ==>
        Aggregate(rows, depth)[j].counts[c] == KeySum(rows, Aggregate(rows, depth)[j].ranks, depth, c)
  {
    var r := Aggregate(rows, depth);
    AggregateSorted(rows, depth);
    forall j, c | 0 <= j < |r| && 0 <= c < |rows[0].counts|
      ensures r[j].counts[c] == KeySum(rows, r[j].ranks, depth, c)
    {
      GroupCountAt(r, j, c);
      AggregateGroupCount(rows, depth, r[j].ranks, c);
    }
  }
}
