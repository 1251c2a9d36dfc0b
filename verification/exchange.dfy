/**
 * The exchange template: an adapter's identity and credentials, and the two
 * market-data operations every adapter inherits. Dump and load work step by
 * step on the file store and are proved equal to the functions of MarketData.
 */
module Exchange {
  import opened Wrappers
  import opened Text
  import opened Candles
  import opened Storage
  import opened MarketData

  const DefaultInterval := "30m"
  const DefaultFile := "data.csv"

  /**
   * One exchange adapter. `source` stands for the adapter's own retrieval
   * operations; `show` for the text the table writer gives a candle value.
   */
  class ExchangeAPI<V> {
    var name: string
    var accessKey: string
    var secretKey: string
    var apiPassphrase: Option<string>
    const source: CandleSource<V>

    /** Stores the credentials; the exchange name is kept in lower case. */
    constructor (name: string, accessKey: string, secretKey: string,
                 source: CandleSource<V>, apiPassphrase: Option<string> := None)
      ensures this.name == Lower(name)
      ensures this.accessKey == accessKey && this.secretKey == secretKey
      ensures this.apiPassphrase == apiPassphrase && this.source == source
    {
      this.name := Lower(name);
      this.accessKey := accessKey;
      this.secretKey := secretKey;
      this.apiPassphrase := apiPassphrase;
      this.source := source;
    }

    /**
     * Retrieves candles (the `amount` most recent, or those from `start` up to
     * `end`) and writes them to `file`: the first candle's keys as header, then
     * each candle's values in its own key order.
     */
    method DumpMarketDataToFile(disk: FileStore, show: V -> string, symbol: string,
                                interval: string := DefaultInterval, file: string := DefaultFile,
                                amount: Option<int> := None, start: Option<string> := None,
                                end: Option<string> := None)
      returns (outcome: DumpOutcome)
      modifies disk
      ensures (outcome, disk.files)
                == Dump(source, show, old(disk.files), symbol, interval, file, amount, start, end)
    {
      var fetched: Fetched<V>;
      if amount.Some? {
        fetched := source.lastCandles(symbol, interval, amount.value);
      } else {
        if start.Some? {
          fetched := source.candles(symbol, interval, start.value, end);
        } else {
          return MissingSelection;
        }
      }
      if fetched.Err? {
        return RetrievalFailed(fetched.error);
      }
      disk.OpenForWriting(file);
      if fetched.value.None? {
        return NoCandles;
      }
      var candles := fetched.value.value;
      if |candles| == 0 {
        return EmptyCandles;
      }
      var templist := Keys(candles[0]);
      disk.WriteRow(file, templist);
      // the header is the only row of the truncated file
      assert disk.files == old(disk.files)[file := []][file := [] + [templist]];
      assert candles[..0] == [];
      assert [Keys(candles[0])] + ValueRows(candles[..0], show) == [] + [templist];

      for i := 0 to |candles|
        invariant disk.files == old(disk.files)[file := [Keys(candles[0])] + ValueRows(candles[..i], show)]
      {
        var line := candles[i];
        templist := [];
        for k := 0 to |line|
          invariant templist == Cells(line[..k], show)
        {
          templist := templist + [show(line[k].value)];
        }
        assert line[..|line|] == line;
        assert candles[..i + 1][..i] == candles[..i];
        ghost var written := [Keys(candles[0])] + ValueRows(candles[..i], show);
        assert ValueRows(candles[..i + 1], show) == ValueRows(candles[..i], show) + [Cells(candles[i], show)];
        assert written + [templist] == [Keys(candles[0])] + ValueRows(candles[..i + 1], show);
        disk.WriteRow(file, templist);
        assert disk.files == old(disk.files)[file := written][file := written + [templist]];
      }
      assert candles[..|candles|] == candles;
      return Written;
    }

    /**
     * Reads the table at `file`: refused unless the path contains ".csv"; the
     * first row is skipped and every other row becomes one candle, in order.
     */
    static method LoadMarketDataFile<F>(disk: FileStore, file: string, parse: string -> Option<F>)
      returns (r: Result<seq<Candle<F>>, LoadError>)
      ensures r == Load(file, disk.files, parse)
    {
      if Find(file, CsvExtension) == -1 {
        return Err(NotCsv);
      }
      var candles: seq<Candle<F>> := [];
      if file !in disk.files {
        return Err(FileNotFound);
      }
      var rows := disk.files[file];
      var lineCount := 0;
      while lineCount < |rows|
        invariant 0 <= lineCount <= |rows|
        invariant lineCount == 0 ==> candles == []
        invariant lineCount > 0 ==> DecodeRows(rows[1..lineCount], parse) == Ok(candles)
      {
        var row := rows[lineCount];
        if lineCount != 0 {
          assert rows[1..lineCount + 1] == rows[1..lineCount] + [row];
          assert rows[1..lineCount + 1][..lineCount - 1] == rows[1..lineCount];
          var temp := DecodeRow(row, parse);
          if temp.Err? {
            assert rows[1..][..lineCount] == rows[1..lineCount + 1];
            DecodeRowsPrefixError(rows[1..], lineCount, parse);
            return Err(temp.error);
          }
          candles := candles + [temp.value];
          lineCount := lineCount + 1;
        } else {
          lineCount := lineCount + 1;
        }
      }
      assert |rows| > 0 ==> rows[1..lineCount] == rows[1..];
      return Ok(candles);
    }
  }
}
