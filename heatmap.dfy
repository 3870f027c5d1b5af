/**
 * The Heatmap screen (components/screens/Heatmap.tsx): every row of the
 * snapshot, largest `|net_change|` first, each drawn as a cell whose hue
 * gives the sign of the change and whose opacity grows with its size.
 */
module Heatmap {
  import opened JsNumber
  import opened Market
  import opened Display
  import MagnitudeSort

  /** `symbols.slice().sort(byMagnitude)`: a reordered copy holding every row. */
  function Ordered(symbols: seq<SymbolStats>): (r: seq<SymbolStats>)
    ensures |r| == |symbols| && multiset(r) == multiset(symbols)
  {
    MagnitudeSort.Sort(symbols)
  }

  /** With finite changes throughout, the cells run from largest to smallest `|net_change|`. */
  lemma OrderedDescending(symbols: seq<SymbolStats>)
    requires AllFinite(symbols)
    ensures MagnitudeSort.Descending(Ordered(symbols))
  {
    MagnitudeSort.SortDescending(symbols);
  }

  datatype Hue = Gain | Loss | Unchanged

  /**
   * A cell's background: `rgba(0,255,65,alpha)` for a gain, `rgba(255,0,51,alpha)`
   * for a loss, `rgba(154,160,166,0.25)` otherwise.
   */
  datatype Background = Background(hue: Hue, alpha: real)

  /**
   * `Math.min(0.85, 0.2 + Math.abs(x) / 5)` for a positive or negative change
   * `x`; an infinite change gives the cap.
   */
  function Opacity(x: Num): (a: real)
    requires !x.NaN?
    ensures 0.2 <= a <= 0.85
    ensures x.Finite? ==> a == Min(0.85, 0.2 + RealAbs(x.value) / 5.0)
    ensures x.PosInf? || x.NegInf? ==> a == 0.85
  {
    match x
    case Finite(v) => Min(0.85, 0.2 + RealAbs(v) / 5.0)
    case _ => 0.85
  }

  /** A larger finite change is never drawn fainter. */
  lemma OpacityMonotone(x: real, y: real)
    requires RealAbs(x) <= RealAbs(y)
    ensures Opacity(Finite(x)) <= Opacity(Finite(y))
  {
  }

  /** A change of 2.5 is drawn at 0.7; from 3.25 on, the opacity stays at 0.85. */
  lemma OpacityValues(x: real)
    ensures Opacity(Finite(2.5)) == 0.7 && Opacity(Finite(-2.5)) == 0.7
    ensures RealAbs(x) >= 3.25 ==> Opacity(Finite(x)) == 0.85
  {
  }

  /** The background of a cell whose `net_change` is `x`. */
  function BackgroundOf(x: Num): (b: Background)
    ensures b.hue == Gain <==> IsPositive(x)
    ensures b.hue == Loss <==> IsNegative(x)
    ensures b.hue == Unchanged ==> b.alpha == 0.25
    ensures b.hue != Unchanged ==> b.alpha == Opacity(x) && 0.2 <= b.alpha <= 0.85
  {
    if IsPositive(x) then Background(Gain, Opacity(x))
    else if IsNegative(x) then Background(Loss, Opacity(x))
    else Background(Unchanged, 0.25)
  }

  /** One cell: the symbol, its background and its two text lines. */
  datatype Cell = Cell(symbol: string, background: Background, changeLine: Text, percentLine: Text)

  /**
   * The two text lines. A finite value shows with two decimals (the change
   * without `%`, the percent change with it); a non-finite one shows the
   * literal `0.00%` in both lines.
   */
  function CellOf(row: SymbolStats): (c: Cell)
    ensures c.symbol == row.symbol
    ensures c.background == BackgroundOf(row.netChange)
    ensures IsFinite(row.netChange) ==> c.changeLine == Fixed(row.netChange.value, 2, "")
    ensures !IsFinite(row.netChange) ==> c.changeLine == Literal("0.00%")
    ensures IsFinite(row.percentChange) ==> c.percentLine == Fixed(row.percentChange.value, 2, "%")
    ensures !IsFinite(row.percentChange) ==> c.percentLine == Literal("0.00%")
  {
    Cell(
      row.symbol,
      BackgroundOf(row.netChange),
      if IsFinite(row.netChange) then Fixed(row.netChange.value, 2, "") else Literal("0.00%"),
      if IsFinite(row.percentChange) then Fixed(row.percentChange.value, 2, "%") else Literal("0.00%"))
  }

  /** `sorted.map(...)`: one cell per snapshot row, in heatmap order; no row is left out and none added. */
  function Cells(symbols: seq<SymbolStats>): (r: seq<Cell>)
    ensures |r| == |symbols|
    ensures forall i :: 0 <= i < |r| ==> r[i] == CellOf(Ordered(symbols)[i])
    ensures forall j :: 0 <= j < |symbols| ==> exists i :: 0 <= i < |r| && r[i] == CellOf(symbols[j])
    ensures forall i :: 0 <= i < |r| ==> exists j :: 0 <= j < |symbols| && r[i] == CellOf(symbols[j])
  {
    var ordered := Ordered(symbols);
    var r := seq(|ordered|, i requires 0 <= i < |ordered| => CellOf(ordered[i]));
    assert forall j :: 0 <= j < |symbols| ==> symbols[j] in multiset(ordered);
    assert forall i :: 0 <= i < |r| ==> ordered[i] in multiset(symbols);
    r
  }
}
