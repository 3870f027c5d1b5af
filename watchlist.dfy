/**
 * The Watchlist screen (components/screens/Watchlist.tsx): the snapshot rows
 * whose symbol is on the watchlist, and which of its three states it shows.
 */
module Watchlist {
  import opened Market
  import Seqs

  /** The snapshot rows whose symbol is in `members`. */
  function OnList(members: set<string>): (keep: SymbolStats -> bool)
    ensures forall row :: keep(row) <==> row.symbol in members
  {
    (row: SymbolStats) => row.symbol in members
  }

  /**
   * The `filtered` memo: nothing for an empty watchlist; otherwise the rows
   * of `allSymbols` whose symbol is on the watchlist, in snapshot order, each
   * as often as in the snapshot.
   */
  function Filtered(wishlist: seq<string>, allSymbols: seq<SymbolStats>): (r: seq<SymbolStats>)
    ensures wishlist == [] ==> r == []
    ensures |r| <= |allSymbols|
    ensures Seqs.IsSubsequence(r, allSymbols)
    ensures forall i :: 0 <= i < |r| ==> r[i].symbol in wishlist
    ensures forall row :: row in allSymbols && row.symbol in wishlist ==> row in r
    ensures forall row :: multiset(r)[row] == if row.symbol in wishlist then multiset(allSymbols)[row] else 0
  {
    if |wishlist| == 0 then
      assert Seqs.IsSubsequence([], allSymbols);
      []
    else
      var members := set s | s in wishlist;
      var p := OnList(members);
      Seqs.FilterCount(allSymbols, p);
      Seqs.FilterIsSubsequence(allSymbols, p);
      Seqs.Filter(allSymbols, p)
  }

  /** What the screen shows. */
  datatype Screen = Spinner | EmptyNotice | Rows(rows: seq<SymbolStats>)

  /** The spinner while loading, else the empty notice when nothing matches, else the matching rows. */
  function View(loading: bool, wishlist: seq<string>, allSymbols: seq<SymbolStats>): (v: Screen)
    ensures v == Spinner <==> loading
    ensures v == EmptyNotice <==> !loading && Filtered(wishlist, allSymbols) == []
    ensures v.Rows? ==> v.rows == Filtered(wishlist, allSymbols) && v.rows != []
    ensures !loading && wishlist == [] ==> v == EmptyNotice
  {
    var filtered := Filtered(wishlist, allSymbols);
    if loading then Spinner
    else if |filtered| == 0 then EmptyNotice
    else Rows(filtered)
  }
}
