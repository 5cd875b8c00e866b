/** Values held by the candle store: the optional result of a numeric
    conversion and one OHLCV candle. */
module Candles {

  /** The result of a conversion that may fail. */
  datatype Option<+T> = None | Some(value: T)

  /** The number a successful `float(...)` conversion yields. The model never
      computes with it: it is carried from the row into the candle unchanged,
      so floating-point behaviour plays no part. */
  type Num = real

  /** One stored candle: the time field is kept as the text it arrived as,
      the five numeric fields as converted numbers. */
  datatype Candle = Candle(time: string, open: Num, high: Num, low: Num, close: Num, volume: Num)
}
