/** The theme colours the charts pick for completion bands, ranked from
    the weakest band to the strongest. */
module Theme {

  datatype Colour = Secondary | Chart6 | Primary | Accent

  /** The strength of a band: secondary < chart-6 < primary < accent. */
  function Rank(c: Colour): nat
  {
    match c
    case Secondary => 0
    case Chart6 => 1
    case Primary => 2
    case Accent => 3
  }
}
