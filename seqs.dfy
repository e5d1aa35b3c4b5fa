/** Order-preserving selection from a sequence (a boolean-mask row selection
    followed by `reset_index(drop=True)`) and the lexicographic order in which
    Python compares strings and tuples. */
module Seqs {

  /** The elements of `s` that satisfy `p`, in their original order. */
  function Filter<T>(s: seq<T>, p: T -> bool): (r: seq<T>)
    ensures |r| <= |s|
    ensures forall i :: 0 <= i < |r| ==> r[i] in s && p(r[i])
    ensures forall i :: 0 <= i < |s| && p(s[i]) ==> s[i] in r
  {
    if |s| == 0 then []
    else (if p(s[0]) then [s[0]] else []) + Filter(s[1..], p)
  }

  /** The positions (counted from `base`) of the elements of `s` that satisfy `p`. */
  ghost function KeptPositions<T>(s: seq<T>, p: T -> bool, base: nat): seq<nat>
  {
    if |s| == 0 then []
    else (if p(s[0]) then [base] else []) + KeptPositions(s[1..], p, base + 1)
  }

  lemma {:induction false} KeptPositionsRange<T>(s: seq<T>, p: T -> bool, base: nat)
    ensures forall j :: 0 <= j < |KeptPositions(s, p, base)| ==>
      base <= KeptPositions(s, p, base)[j] < base + |s|
  {
    if |s| > 0 {
      KeptPositionsRange(s[1..], p, base + 1);
    }
  }

  /** One position is kept per element of `Filter`'s output. */
  lemma {:induction false} KeptPositionsLength<T>(s: seq<T>, p: T -> bool, base: nat)
    ensures |KeptPositions(s, p, base)| == |Filter(s, p)|
  {
    if |s| > 0 {
      KeptPositionsLength(s[1..], p, base + 1);
    }
  }

  /** The j-th kept position holds the j-th element of `Filter`'s output. */
  lemma {:induction false} KeptPositionAt<T>(s: seq<T>, p: T -> bool, base: nat, j: nat)
    requires j < |Filter(s, p)|
    ensures j < |KeptPositions(s, p, base)|
    ensures base <= KeptPositions(s, p, base)[j] < base + |s|
    ensures s[KeptPositions(s, p, base)[j] - base] == Filter(s, p)[j]
    decreases |s|
  {
    var idx, r := KeptPositions(s, p, base), Filter(s, p);
    var rest, tail := KeptPositions(s[1..], p, base + 1), Filter(s[1..], p);
    KeptPositionsLength(s[1..], p, base + 1);
    if p(s[0]) {
      assert idx == [base] + rest && r == [s[0]] + tail;
      if j > 0 {
        KeptPositionAt(s[1..], p, base + 1, j - 1);
        assert s[idx[j] - base] == s[1..][rest[j - 1] - (base + 1)];
      }
    } else {
      assert idx == rest && r == tail;
      KeptPositionAt(s[1..], p, base + 1, j);
      assert s[idx[j] - base] == s[1..][rest[j] - (base + 1)];
    }
  }

  /** Each kept position holds the corresponding element of `Filter`'s output. */
  lemma KeptPositionsSelect<T>(s: seq<T>, p: T -> bool, base: nat)
    ensures |KeptPositions(s, p, base)| == |Filter(s, p)|
    ensures forall j :: 0 <= j < |Filter(s, p)| ==>
      base <= KeptPositions(s, p, base)[j] < base + |s| && s[KeptPositions(s, p, base)[j] - base] == Filter(s, p)[j]
  {
    KeptPositionsLength(s, p, base);
    forall j | 0 <= j < |Filter(s, p)|
      ensures base <= KeptPositions(s, p, base)[j] < base + |s| && s[KeptPositions(s, p, base)[j] - base] == Filter(s, p)[j]
    {
      KeptPositionAt(s, p, base, j);
    }
  }

  /** Kept positions are strictly increasing: the output keeps the input's order. */
  lemma {:induction false} KeptPositionsIncreasing<T>(s: seq<T>, p: T -> bool, base: nat)
    ensures forall j, k :: 0 <= j < k < |KeptPositions(s, p, base)| ==>
      KeptPositions(s, p, base)[j] < KeptPositions(s, p, base)[k]
  {
    if |s| > 0 {
      KeptPositionsIncreasing(s[1..], p, base + 1);
      KeptPositionsRange(s[1..], p, base + 1);
    }
  }

  /** A position is kept exactly when its element satisfies `p`. */
  lemma {:induction false} KeptPositionsExact<T>(s: seq<T>, p: T -> bool, base: nat)
    ensures forall i :: 0 <= i < |s| ==> (p(s[i]) <==> base + i in KeptPositions(s, p, base))
  {
    if |s| > 0 {
      KeptPositionsExact(s[1..], p, base + 1);
      KeptPositionsRange(s[1..], p, base + 1);
      var rest := KeptPositions(s[1..], p, base + 1);
      assert KeptPositions(s, p, base) == (if p(s[0]) then [base] else []) + rest;
      forall i | 0 < i < |s|
        ensures p(s[i]) <==> base + i in KeptPositions(s, p, base)
      {
        assert s[i] == s[1..][i - 1];
      }
    }
  }

  /** The output of `Filter` is the input with some elements deleted and nothing
      else changed, re-indexed densely from 0: the positions it keeps are strictly
      increasing, are exactly those whose element satisfies `p`, and the j-th
      output element is the input element at the j-th kept position. */
  ghost function FilterPositions<T>(s: seq<T>, p: T -> bool): (idx: seq<nat>)
    ensures |idx| == |Filter(s, p)|
    ensures forall j :: 0 <= j < |idx| ==> idx[j] < |s| && s[idx[j]] == Filter(s, p)[j]
    ensures forall j, k :: 0 <= j < k < |idx| ==> idx[j] < idx[k]
    ensures forall i :: 0 <= i < |s| ==> (p(s[i]) <==> i in idx)
  {
    KeptPositionsSelect(s, p, 0);
    KeptPositionsIncreasing(s, p, 0);
    KeptPositionsExact(s, p, 0);
    KeptPositions(s, p, 0)
  }

  /** Filtering a sequence whose elements all pass changes nothing. */
  lemma {:induction false} FilterAllPass<T>(s: seq<T>, p: T -> bool)
    requires forall i :: 0 <= i < |s| ==> p(s[i])
    ensures Filter(s, p) == s
  {
    if |s| > 0 {
      FilterAllPass(s[1..], p);
      assert [s[0]] + s[1..] == s;
    }
  }

  /** Applying the same filter twice gives the same result as applying it once. */
  lemma FilterIdempotent<T>(s: seq<T>, p: T -> bool)
    ensures Filter(Filter(s, p), p) == Filter(s, p)
  {
    var r := Filter(s, p);
    assert forall i :: 0 <= i < |r| ==> r[i] in r;
    FilterAllPass(r, p);
  }

  /** Strict lexicographic order, with a proper prefix before its extensions. */
  predicate LexLess<T(==)>(a: seq<T>, b: seq<T>, less: (T, T) -> bool)
    decreases |a|
  {
    if |a| == 0 then |b| > 0
    else |b| > 0 && (less(a[0], b[0]) || (a[0] == b[0] && LexLess(a[1..], b[1..], less)))
  }

  ghost predicate StrictTotalOrder<T(!new)>(less: (T, T) -> bool) {
    && (forall x :: !less(x, x))
    && (forall x, y, z :: less(x, y) && less(y, z) ==> less(x, z))
    && (forall x, y :: x != y ==> less(x, y) || less(y, x))
  }

  lemma {:induction false} LexLessIrreflexive<T(!new)>(a: seq<T>, less: (T, T) -> bool)
    requires StrictTotalOrder(less)
    ensures !LexLess(a, a, less)
    decreases |a|
  {
    if |a| > 0 {
      LexLessIrreflexive(a[1..], less);
    }
  }

  lemma {:induction false} LexLessTransitive<T(!new)>(a: seq<T>, b: seq<T>, c: seq<T>, less: (T, T) -> bool)
    requires StrictTotalOrder(less)
    requires LexLess(a, b, less) && LexLess(b, c, less)
    ensures LexLess(a, c, less)
    decreases |a|
  {
    if |a| > 0 && a[0] == b[0] && b[0] == c[0] {
      LexLessTransitive(a[1..], b[1..], c[1..], less);
    }
  }

  lemma {:induction false} LexLessTotal<T(!new)>(a: seq<T>, b: seq<T>, less: (T, T) -> bool)
    requires StrictTotalOrder(less)
    requires a != b
    ensures LexLess(a, b, less) || LexLess(b, a, less)
    decreases |a|
  {
    if |a| > 0 && |b| > 0 && a[0] == b[0] {
      assert a == [a[0]] + a[1..] && b == [b[0]] + b[1..];
      LexLessTotal(a[1..], b[1..], less);
    }
  }
}
