/** Rows of the daily price history that the market-data provider returns.
    Prices and volume are kept abstract as integers; Year and Month are taken
    as given fields (the source derives them from the row's date). */
module Bars {

  /** The conventional optional value; None stands for "no data". */
  datatype Option<T> = None | Some(value: T)

  /** One trading day: the Year and Month columns added after loading, and the
      Open/High/Low/Close/Volume columns of the fetched history. */
  datatype Bar = Bar(year: int, month: int, open: int, high: int, low: int, close: int, volume: int)

  /** The five columns shown as "At a Glance" indicators. */
  datatype Column = Open | High | Low | Close | Volume

  /** The value of column `c` in row `b`. */
  function Field(b: Bar, c: Column): int
  {
    match c
    case Open => b.open
    case High => b.high
    case Low => b.low
    case Close => b.close
    case Volume => b.volume
  }

  /** The Year column of a series, row by row. */
  function Years(series: seq<Bar>): (ys: seq<int>)
    ensures |ys| == |series|
    ensures forall i :: 0 <= i < |series| ==> ys[i] == series[i].year
  {
    seq(|series|, i requires 0 <= i < |series| => series[i].year)
  }

  /** The Month column of a series, row by row. */
  function Months(series: seq<Bar>): (ms: seq<int>)
    ensures |ms| == |series|
    ensures forall i :: 0 <= i < |series| ==> ms[i] == series[i].month
  {
    seq(|series|, i requires 0 <= i < |series| => series[i].month)
  }
}
