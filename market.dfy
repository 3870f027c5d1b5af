/**
 * The per-symbol record of one market snapshot, as delivered by the
 * market-data endpoint, and the JavaScript truthiness rules the views apply
 * to its text fields.
 */
module Market {
  import opened Wrappers
  import opened JsNumber

  /** A text field of the JSON record: `None` when it is absent or null. */
  type Field = Option<string>

  /** Whether the field is truthy in JavaScript: present and not the empty string. */
  predicate Truthy(f: Field) {
    f.Some? && f.value != ""
  }

  /** `f || fallback` for a text field. */
  function OrElse(f: Field, fallback: string): (r: string)
    ensures Truthy(f) ==> r == f.value
    ensures !Truthy(f) ==> r == fallback
  {
    if Truthy(f) then f.value else fallback
  }

  /** One row of the snapshot. */
  datatype SymbolStats = SymbolStats(
    symbol: string,
    bidVolume: Field,
    bidPrice: Field,
    askVolume: Field,
    askPrice: Field,
    lastTradePrice: Field,
    lastTradeVolume: Field,
    totalTradeVolume: Field,
    totalTradeValue: Field,
    openPrice: Field,
    highPrice: Field,
    lowPrice: Field,
    closePrice: Field,
    netChange: Num,
    changeIcon: Field,
    percentChange: Num,
    percentChangeIcon: Field)

  /** Every row of `s` has a finite `net_change`. */
  predicate AllFinite(s: seq<SymbolStats>) {
    forall i :: 0 <= i < |s| ==> IsFinite(s[i].netChange)
  }

  /** `Math.abs(row.net_change)` of a row whose change is finite. */
  function Magnitude(row: SymbolStats): (m: real)
    requires IsFinite(row.netChange)
    ensures m >= 0.0 && Abs(row.netChange) == Finite(m)
  {
    RealAbs(row.netChange.value)
  }
}
