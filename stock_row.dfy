/**
 * One grid row (components/layout/StockRow.tsx): the cells it shows for a
 * snapshot row and the parameters it passes to the detail screen. The
 * runtime's `parseFloat` and `Number` on strings are passed in as functions.
 */
module StockRow {
  import opened Wrappers
  import opened JsNumber
  import opened Market
  import opened Display

  /** `item.last_trade_price || item.open_price || '0'` */
  function LastSource(item: SymbolStats): (s: string)
    ensures s != ""
    ensures Truthy(item.lastTradePrice) ==> s == item.lastTradePrice.value
    ensures !Truthy(item.lastTradePrice) && Truthy(item.openPrice) ==> s == item.openPrice.value
    ensures !Truthy(item.lastTradePrice) && !Truthy(item.openPrice) ==> s == "0"
  {
    OrElse(item.lastTradePrice, OrElse(item.openPrice, "0"))
  }

  /** `parseFloat(LastSource(item))` */
  function LastPrice(item: SymbolStats, parseFloat: string -> Num): (n: Num)
    ensures Truthy(item.lastTradePrice) ==> n == parseFloat(item.lastTradePrice.value)
    ensures !Truthy(item.lastTradePrice) && Truthy(item.openPrice) ==> n == parseFloat(item.openPrice.value)
    ensures !Truthy(item.lastTradePrice) && !Truthy(item.openPrice) ==> n == parseFloat("0")
  {
    parseFloat(LastSource(item))
  }

  /** How the change colours the row. */
  datatype Trend = Up | Down | Neutral

  /** `isUp = change > 0`, `isDown = change < 0`; NaN and zero are neutral. */
  function TrendOf(change: Num): (t: Trend)
    ensures t == Up <==> IsPositive(change)
    ensures t == Down <==> IsNegative(change)
    ensures t == Neutral <==> change == Finite(0.0) || change.NaN?
  {
    if IsPositive(change) then Up else if IsNegative(change) then Down else Neutral
  }

  /** The LAST cell: two decimals when finite, the placeholder glyph otherwise. */
  function LastCell(last: Num): (t: Text)
    ensures t == Literal(Dash) <==> !IsFinite(last)
    ensures IsFinite(last) ==> t == Fixed(last.value, 2, "")
  {
    if IsFinite(last) then Fixed(last.value, 2, "") else Literal(Dash)
  }

  /** A change cell: two decimals when finite, `0.00` otherwise, then `suffix` ("" or "%"). */
  function ChangeCell(change: Num, suffix: string): (t: Text)
    ensures t == Literal("0.00" + suffix) <==> !IsFinite(change)
    ensures IsFinite(change) ==> t == Fixed(change.value, 2, suffix)
  {
    if IsFinite(change) then Fixed(change.value, 2, suffix) else Literal("0.00" + suffix)
  }

  /** The BID and ASK cells: `price || '—'`. */
  function QuoteCell(price: Field): (t: Text)
    ensures !Truthy(price) ==> t == Literal(Dash)
    ensures Truthy(price) ==> t == Literal(price.value)
    ensures t.Literal? && t.text != ""
  {
    Literal(OrElse(price, Dash))
  }

  /** The VOL cell, before the digits are written out. */
  datatype VolumeText =
    | Placeholder              // the glyph `—`
    | Verbatim(text: string)   // the volume string as received
    | Billions(amount: real)   // `amount.toFixed(2)` without a trailing `.00`, then `B`
    | Millions(amount: real)   // `amount.toFixed(2)` without a trailing `.00`, then `M`
    | Thousands(amount: real)  // `amount.toFixed(0)`, then `K`
    | Grouped(value: real)     // `value.toLocaleString()`

  /** The tier of a finite volume, compared with the largest threshold first. */
  function Tier(v: real): (t: VolumeText)
    ensures t.Billions? <==> v >= 1000000000.0
    ensures t.Millions? <==> 1000000.0 <= v < 1000000000.0
    ensures t.Thousands? <==> 100000.0 <= v < 1000000.0
    ensures t.Grouped? <==> v < 100000.0
    ensures t.Billions? ==> t.amount * 1000000000.0 == v && t.amount >= 1.0
    ensures t.Millions? ==> t.amount * 1000000.0 == v && 1.0 <= t.amount < 1000.0
    ensures t.Thousands? ==> t.amount * 1000.0 == v && 100.0 <= t.amount < 1000.0
    ensures t.Grouped? ==> t.value == v
  {
    if v >= 1000000000.0 then Billions(v / 1000000000.0)
    else if v >= 1000000.0 then Millions(v / 1000000.0)
    else if v >= 100000.0 then Thousands(v / 1000.0)
    else Grouped(v)
  }

  /** The volumes used as examples for the formatter. */
  lemma TierExamples()
    ensures Tier(1500000000.0) == Billions(1.5)
    ensures Tier(250000.0) == Thousands(250.0)
    ensures Tier(850.0) == Grouped(850.0)
  {
  }

  /**
   * The VOL cell: the glyph for an empty volume; the string itself when
   * `Number(volume)` is not finite; otherwise the tier of that number.
   */
  function VolumeCell(volume: Field, toNumber: string -> Num): (t: VolumeText)
    ensures t.Placeholder? <==> !Truthy(volume)
    ensures t.Verbatim? <==> Truthy(volume) && !IsFinite(toNumber(volume.value))
    ensures t.Verbatim? ==> t.text == volume.value
    ensures Truthy(volume) && IsFinite(toNumber(volume.value)) ==> t == Tier(toNumber(volume.value).value)
  {
    if !Truthy(volume) then Placeholder
    else
      var v := toNumber(volume.value);
      if !IsFinite(v) then Verbatim(volume.value) else Tier(v.value)
  }

  /** What one row shows. */
  datatype RowView = RowView(
    symbol: string, trend: Trend, last: Text, change: Text, percent: Text,
    bid: Text, ask: Text, volume: VolumeText)

  function View(item: SymbolStats, parseFloat: string -> Num, toNumber: string -> Num): (r: RowView)
    ensures r.symbol == item.symbol
    ensures r.trend == Up <==> IsPositive(item.netChange)
    ensures r.trend == Down <==> IsNegative(item.netChange)
    ensures r.last == Literal(Dash) <==> !IsFinite(LastPrice(item, parseFloat))
    ensures r.change == Literal("0.00") <==> !IsFinite(item.netChange)
    ensures r.percent == Literal("0.00%") <==> !IsFinite(item.percentChange)
    ensures !Truthy(item.bidPrice) ==> r.bid == Literal(Dash)
    ensures !Truthy(item.askPrice) ==> r.ask == Literal(Dash)
    ensures r.volume.Placeholder? <==> !Truthy(item.totalTradeVolume)
    ensures Truthy(item.bidPrice) ==> r.bid == Literal(item.bidPrice.value)
    ensures Truthy(item.askPrice) ==> r.ask == Literal(item.askPrice.value)
    ensures r.trend == TrendOf(item.netChange)
    ensures r.last == LastCell(LastPrice(item, parseFloat))
    ensures r.change == ChangeCell(item.netChange, "") && r.percent == ChangeCell(item.percentChange, "%")
    ensures r.bid == QuoteCell(item.bidPrice) && r.ask == QuoteCell(item.askPrice)
    ensures r.volume == VolumeCell(item.totalTradeVolume, toNumber)
  {
    RowView(
      item.symbol,
      TrendOf(item.netChange),
      LastCell(LastPrice(item, parseFloat)),
      ChangeCell(item.netChange, ""),
      ChangeCell(item.percentChange, "%"),
      QuoteCell(item.bidPrice),
      QuoteCell(item.askPrice),
      VolumeCell(item.totalTradeVolume, toNumber))
  }

  /** A numeric navigation parameter: `String(n)` of a number, or `''`. */
  datatype NumberParam = Blank | Number(n: Num)

  /** The parameters handed to the detail screen, all of them strings. */
  datatype NavParams = NavParams(
    symbol: string, last: NumberParam, netChange: NumberParam, percentChange: NumberParam,
    bidPrice: string, askPrice: string, openPrice: string, highPrice: string,
    lowPrice: string, closePrice: string, totalTradeVolume: string, totalTradeValue: string)

  /** `x || ''` on a number: zero and NaN are falsy. */
  function FalsyToBlank(n: Num): (p: NumberParam)
    ensures p == Blank <==> n == Finite(0.0) || n.NaN?
    ensures p.Number? ==> p.n == n
  {
    if n == Finite(0.0) || n.NaN? then Blank else Number(n)
  }

  /** `Number.isFinite(x) ? x : ''` */
  function FiniteOrBlank(n: Num): (p: NumberParam)
    ensures p == Blank <==> !IsFinite(n)
    ensures p.Number? ==> p.n == n
  {
    if IsFinite(n) then Number(n) else Blank
  }

  /**
   * The detail-screen parameters: the last price blank when it is zero or
   * NaN (an infinite one is passed on), the changes blank when not finite
   * (a zero change is passed as a number), and every missing text field `''`.
   */
  function Params(item: SymbolStats, parseFloat: string -> Num): (p: NavParams)
    ensures p.symbol == item.symbol
    ensures p.last == Blank <==> LastPrice(item, parseFloat) == Finite(0.0) || LastPrice(item, parseFloat).NaN?
    ensures p.netChange == Blank <==> !IsFinite(item.netChange)
    ensures p.percentChange == Blank <==> !IsFinite(item.percentChange)
    ensures p.last.Number? ==> p.last.n == LastPrice(item, parseFloat)
    ensures p.netChange.Number? ==> p.netChange.n == item.netChange
    ensures p.percentChange.Number? ==> p.percentChange.n == item.percentChange
    ensures p.bidPrice == OrElse(item.bidPrice, "") && (p.bidPrice == "" <==> !Truthy(item.bidPrice))
    ensures p.askPrice == OrElse(item.askPrice, "") && (p.askPrice == "" <==> !Truthy(item.askPrice))
    ensures p.openPrice == OrElse(item.openPrice, "") && (p.openPrice == "" <==> !Truthy(item.openPrice))
    ensures p.highPrice == OrElse(item.highPrice, "") && (p.highPrice == "" <==> !Truthy(item.highPrice))
    ensures p.lowPrice == OrElse(item.lowPrice, "") && (p.lowPrice == "" <==> !Truthy(item.lowPrice))
    ensures p.closePrice == OrElse(item.closePrice, "") && (p.closePrice == "" <==> !Truthy(item.closePrice))
    ensures p.totalTradeVolume == OrElse(item.totalTradeVolume, "")
    ensures p.totalTradeVolume == "" <==> !Truthy(item.totalTradeVolume)
    ensures p.totalTradeValue == OrElse(item.totalTradeValue, "")
    ensures p.totalTradeValue == "" <==> !Truthy(item.totalTradeValue)
  {
    NavParams(
      item.symbol,
      FalsyToBlank(LastPrice(item, parseFloat)),
      FiniteOrBlank(item.netChange),
      FiniteOrBlank(item.percentChange),
      OrElse(item.bidPrice, ""),
      OrElse(item.askPrice, ""),
      OrElse(item.openPrice, ""),
      OrElse(item.highPrice, ""),
      OrElse(item.lowPrice, ""),
      OrElse(item.closePrice, ""),
      OrElse(item.totalTradeVolume, ""),
      OrElse(item.totalTradeValue, ""))
  }
}
