/** Candle records as the exchange adapters produce them, and as the loader rebuilds them. */
module Candles {

  /** One key/value pair of an adapter's candle dictionary. */
  datatype Entry<V> = Entry(key: string, value: V)

  /** An adapter's candle dictionary, its entries in iteration (insertion) order. */
  type Record<V> = seq<Entry<V>>

  /** One row of a table file: its cells, left to right. */
  type Row = seq<string>

  /** The fixed-shape record the loader builds from the first five columns of a row. */
  datatype Candle<F> = Candle(ts: F, open: F, high: F, low: F, close: F)

  /** The column names of the fixed record, in column order. */
  const Schema: Row := ["ts", "open", "high", "low", "close"]

  /** The keys of a record, in iteration order. */
  function Keys<V>(r: Record<V>): Row {
    seq(|r|, i requires 0 <= i < |r| => r[i].key)
  }

  /** The values of a record in iteration order, each written as text by `show`. */
  function Cells<V>(r: Record<V>, show: V -> string): Row {
    seq(|r|, i requires 0 <= i < |r| => show(r[i].value))
  }

  /** The dictionary an adapter would produce for a candle, keys in `Schema` order. */
  function ToRecord<F>(c: Candle<F>): Record<F> {
    [Entry("ts", c.ts), Entry("open", c.open), Entry("high", c.high), Entry("low", c.low), Entry("close", c.close)]
  }
}
