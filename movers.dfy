/**
 * The Movers screen (components/screens/Movers.tsx): the rows whose
 * `net_change` is finite and nonzero, largest `|net_change|` first.
 */
module Movers {
  import opened Wrappers
  import opened JsNumber
  import opened Market
  import Seqs
  import MagnitudeSort

  /** `Number.isFinite(s.net_change) && Math.abs(s.net_change) > 0` */
  function IsMover(row: SymbolStats): (b: bool)
    ensures b <==> IsFinite(row.netChange) && row.netChange.value != 0.0
  {
    IsFinite(row.netChange) && IsPositive(Abs(row.netChange))
  }

  /**
   * `(data || []).filter(IsMover).sort(byMagnitude)`: exactly the qualifying
   * rows of the snapshot, each as many times as in the snapshot, and none
   * when there is no snapshot.
   */
  function Movers(data: Option<seq<SymbolStats>>): (r: seq<SymbolStats>)
    ensures forall i :: 0 <= i < |r| ==> IsMover(r[i])
    ensures forall row :: multiset(r)[row] == if IsMover(row) then multiset(data.GetOr([]))[row] else 0
    ensures data == None ==> r == []
  {
    var qualifying := Seqs.Filter(data.GetOr([]), IsMover);
    Seqs.FilterCount(data.GetOr([]), IsMover);
    MagnitudeSort.Sort(qualifying)
  }

  /** The list is ordered by `|net_change|`, largest first, and every change shown is nonzero. */
  lemma MoversDescending(data: Option<seq<SymbolStats>>)
    ensures MagnitudeSort.Descending(Movers(data))
    ensures forall i :: 0 <= i < |Movers(data)| ==> Magnitude(Movers(data)[i]) > 0.0
  {
    var qualifying := Seqs.Filter(data.GetOr([]), IsMover);
    MagnitudeSort.SortDescending(qualifying);
  }

  /** Rows with the same `|net_change|` keep their snapshot order. */
  lemma MoversStable(data: Option<seq<SymbolStats>>, m: Num)
    ensures Seqs.Filter(Movers(data), MagnitudeSort.MagnitudeIs(m))
         == Seqs.Filter(Seqs.Filter(data.GetOr([]), IsMover), MagnitudeSort.MagnitudeIs(m))
  {
    MagnitudeSort.SortStable(Seqs.Filter(data.GetOr([]), IsMover), m);
  }

  /**
   * The home screen already hands Movers a filtered and sorted array, which
   * Movers filters and sorts again: doing so changes nothing.
   */
  lemma MoversIdempotent(data: Option<seq<SymbolStats>>)
    ensures Movers(Some(Movers(data))) == Movers(data)
  {
    var once := Movers(data);
    MoversDescending(data);
    Seqs.FilterKeepsAll(once, IsMover);
    MagnitudeSort.SortOfDescending(once);
  }
}
