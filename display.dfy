/**
 * Rendered text, kept as tagged values: the exact digits that `toFixed`
 * produces are not modelled, only which value is shown with how many
 * decimals and which literal is shown instead.
 */
module Display {

  datatype Text =
    | Fixed(value: real, decimals: nat, suffix: string)  // `${value.toFixed(decimals)}${suffix}`
    | Literal(text: string)                              // a string shown as it is

  /** The placeholder glyph for a missing value. */
  const Dash: string := "—"
}
