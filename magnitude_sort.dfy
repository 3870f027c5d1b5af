/**
 * The ordering shared by the Movers and Heatmap screens:
 * `rows.sort((a, b) => Math.abs(b.net_change) - Math.abs(a.net_change))`
 * on a fresh array. Since ECMAScript 2019 `Array.prototype.sort` is stable,
 * and for a consistent comparator every stable sort yields the same
 * sequence; the model computes it by insertion. The engine reads a
 * negative comparator result as "a before b" and a NaN result as zero.
 */
module MagnitudeSort {
  import opened JsNumber
  import opened Market
  import Seqs

  /** The comparator's result for the pair (a, b). */
  function Compare(a: SymbolStats, b: SymbolStats): (r: Num)
    ensures a.netChange.Finite? && b.netChange.Finite? ==> r == Finite(RealAbs(b.netChange.value) - RealAbs(a.netChange.value))
    ensures a.netChange.NaN? || b.netChange.NaN? ==> r.NaN?
    ensures !a.netChange.Finite? && !a.netChange.NaN? && b.netChange.Finite? ==> r.NegInf?
    ensures a.netChange.Finite? && !b.netChange.Finite? && !b.netChange.NaN? ==> r.PosInf?
    ensures !a.netChange.Finite? && !a.netChange.NaN? && !b.netChange.Finite? && !b.netChange.NaN? ==> r.NaN?
  {
    Sub(Abs(b.netChange), Abs(a.netChange))
  }

  /** The comparator puts `a` strictly before `b`. */
  function Before(a: SymbolStats, b: SymbolStats): (r: bool)
    ensures r ==> !a.netChange.NaN? && !b.netChange.NaN?
    ensures r ==> Abs(a.netChange) != Abs(b.netChange)
    ensures !a.netChange.Finite? && !a.netChange.NaN? && b.netChange.Finite? ==> r
    ensures a.netChange.Finite? && !b.netChange.Finite? ==> !r
    ensures !a.netChange.Finite? && !b.netChange.Finite? ==> !r
  {
    IsNegative(Compare(a, b))
  }

  /** On finite changes, `a` comes strictly before `b` exactly when its magnitude is larger. */
  lemma BeforeFinite(a: SymbolStats, b: SymbolStats)
    requires IsFinite(a.netChange) && IsFinite(b.netChange)
    ensures Before(a, b) <==> Magnitude(a) > Magnitude(b)
  {
  }

  /** Rows strictly ordered by the comparator never have the same magnitude. */
  lemma BeforeSeparates(a: SymbolStats, b: SymbolStats)
    requires Before(a, b)
    ensures Abs(a.netChange) != Abs(b.netChange)
  {
  }

  /** Insert `x`, which precedes every row of `ys` in the input, into the sorted `ys`. */
  function Insert(x: SymbolStats, ys: seq<SymbolStats>): (r: seq<SymbolStats>)
    ensures |r| == |ys| + 1
  {
    if ys == [] then [x]
    else if Before(ys[0], x) then [ys[0]] + Insert(x, ys[1..])
    else [x] + ys
  }

  /** Insertion adds exactly the one new row. */
  lemma {:induction false} InsertPermutes(x: SymbolStats, ys: seq<SymbolStats>)
    ensures multiset(Insert(x, ys)) == multiset(ys) + multiset{x}
  {
    if ys != [] && Before(ys[0], x) {
      InsertPermutes(x, ys[1..]);
      assert ys == [ys[0]] + ys[1..];
    }
  }

  /** The sorted copy: a permutation of `s`. */
  function Sort(s: seq<SymbolStats>): (r: seq<SymbolStats>)
    ensures multiset(r) == multiset(s)
    ensures |r| == |s|
  {
    if s == [] then []
    else
      assert s == [s[0]] + s[1..];
      InsertPermutes(s[0], Sort(s[1..]));
      Insert(s[0], Sort(s[1..]))
  }

  /** All changes finite, and magnitudes non-increasing from left to right. */
  predicate Descending(s: seq<SymbolStats>) {
    AllFinite(s) && forall i, j :: 0 <= i < j < |s| ==> Magnitude(s[i]) >= Magnitude(s[j])
  }

  lemma ConsDescending(y: SymbolStats, rest: seq<SymbolStats>)
    requires IsFinite(y.netChange) && Descending(rest)
    requires forall j :: 0 <= j < |rest| ==> Magnitude(y) >= Magnitude(rest[j])
    ensures Descending([y] + rest)
  {
    var r := [y] + rest;
    assert forall i :: 0 < i < |r| ==> r[i] == rest[i - 1];
  }

  /** A bound on the magnitudes of `ys` and on that of `x` bounds those of `Insert(x, ys)`. */
  lemma InsertBound(bound: real, x: SymbolStats, ys: seq<SymbolStats>)
    requires IsFinite(x.netChange) && AllFinite(ys)
    requires Magnitude(x) <= bound
    requires forall j :: 0 <= j < |ys| ==> Magnitude(ys[j]) <= bound
    ensures AllFinite(Insert(x, ys))
    ensures forall j :: 0 <= j < |Insert(x, ys)| ==> Magnitude(Insert(x, ys)[j]) <= bound
  {
    var r := Insert(x, ys);
    InsertPermutes(x, ys);
    forall j | 0 <= j < |r| ensures IsFinite(r[j].netChange) && Magnitude(r[j]) <= bound {
      assert r[j] in multiset(ys) + multiset{x};
      if r[j] != x {
        assert r[j] in ys;
      }
    }
  }

  lemma {:induction false} InsertDescending(x: SymbolStats, ys: seq<SymbolStats>)
    requires IsFinite(x.netChange) && Descending(ys)
    ensures Descending(Insert(x, ys))
  {
    if ys == [] {
      assert Insert(x, ys) == [x];
    } else {
      BeforeFinite(ys[0], x);
      if Before(ys[0], x) {
        var tail := ys[1..];
        DescendingTail(ys);
        InsertDescending(x, tail);
        assert forall j :: 0 <= j < |tail| ==> tail[j] == ys[j + 1];
        InsertBound(Magnitude(ys[0]), x, tail);
        ConsDescending(ys[0], Insert(x, tail));
      } else {
        ConsDescending(x, ys);
      }
    }
  }

  /** When every change is finite, the sorted copy is non-increasing in `|net_change|`. */
  lemma {:induction false} SortDescending(s: seq<SymbolStats>)
    requires AllFinite(s)
    ensures Descending(Sort(s))
  {
    if s != [] {
      SortDescending(s[1..]);
      InsertDescending(s[0], Sort(s[1..]));
    }
  }

  lemma DescendingTail(s: seq<SymbolStats>)
    requires Descending(s) && s != []
    ensures Descending(s[1..])
  {
    var t := s[1..];
    assert forall i :: 0 <= i < |t| ==> t[i] == s[i + 1];
  }

  /** Sorting a sequence that is already in order leaves it as it is. */
  lemma {:induction false} SortOfDescending(s: seq<SymbolStats>)
    requires Descending(s)
    ensures Sort(s) == s
  {
    if s != [] {
      var tail := s[1..];
      DescendingTail(s);
      SortOfDescending(tail);
      assert Sort(s) == Insert(s[0], tail);
      if tail != [] {
        assert tail[0] == s[1];
        assert Magnitude(s[0]) >= Magnitude(s[1]);
        BeforeFinite(s[1], s[0]);
        assert !Before(tail[0], s[0]);
      }
      assert Insert(s[0], tail) == [s[0]] + tail;
      assert [s[0]] + tail == s;
    }
  }

  /** The rows whose `|net_change|` is `m` (NaN rows form one group). */
  function MagnitudeIs(m: Num): (inGroup: SymbolStats -> bool)
  {
    (row: SymbolStats) => Abs(row.netChange) == m
  }

  /** Rows of a group other than `x`'s that `x` is inserted past are not in `x`'s group. */
  lemma InsertPastOther(x: SymbolStats, y: SymbolStats, m: Num)
    requires Before(y, x)
    ensures !(MagnitudeIs(m)(y) && MagnitudeIs(m)(x))
  {
    BeforeSeparates(y, x);
  }

  /** One step of `InsertStable`: a row `x` moves past leaves `x`'s group as it was. */
  lemma InsertStableStep(x: SymbolStats, y: SymbolStats, rest: seq<SymbolStats>, tail: seq<SymbolStats>, m: Num)
    requires Before(y, x)
    requires Seqs.Filter(rest, MagnitudeIs(m))
          == (if MagnitudeIs(m)(x) then [x] else []) + Seqs.Filter(tail, MagnitudeIs(m))
    ensures Seqs.Filter([y] + rest, MagnitudeIs(m))
         == (if MagnitudeIs(m)(x) then [x] else []) + Seqs.Filter([y] + tail, MagnitudeIs(m))
  {
    var p := MagnitudeIs(m);
    InsertPastOther(x, y, m);
    Seqs.FilterSingleton(y, p);
    Seqs.FilterConcat([y], rest, p);
    Seqs.FilterConcat([y], tail, p);
  }

  lemma {:induction false} InsertStable(x: SymbolStats, ys: seq<SymbolStats>, m: Num)
    ensures Seqs.Filter(Insert(x, ys), MagnitudeIs(m))
         == (if MagnitudeIs(m)(x) then [x] else []) + Seqs.Filter(ys, MagnitudeIs(m))
  {
    var p := MagnitudeIs(m);
    Seqs.FilterSingleton(x, p);
    if ys != [] && Before(ys[0], x) {
      var y, tail := ys[0], ys[1..];
      var rest := Insert(x, tail);
      assert Insert(x, ys) == [y] + rest;
      assert ys == [y] + tail;
      InsertStable(x, tail, m);
      InsertStableStep(x, y, rest, tail, m);
    } else {
      assert Insert(x, ys) == [x] + ys;
      Seqs.FilterConcat([x], ys, p);
    }
  }

  /**
   * Stability: for every magnitude, the rows of that magnitude appear in the
   * sorted copy in the same relative order as in the input.
   */
  lemma {:induction false} SortStable(s: seq<SymbolStats>, m: Num)
    ensures Seqs.Filter(Sort(s), MagnitudeIs(m)) == Seqs.Filter(s, MagnitudeIs(m))
  {
    if s != [] {
      SortStable(s[1..], m);
      InsertStable(s[0], Sort(s[1..]), m);
    }
  }
}
