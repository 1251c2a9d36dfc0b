/**
 * The candle persistence pair of the exchange template, as pure functions over
 * the files' rows: which retrieval a dump uses, what a dump leaves in the file
 * system, and what a load returns. The imperative operations in module
 * Exchange are proved equal to these functions.
 */
module MarketData {
  import opened Wrappers
  import opened Text
  import opened Candles
  import opened Storage

  /** What an adapter's retrieval call raises instead of returning candles. */
  datatype AdapterError = NotImplemented | RequestFailed(detail: string)

  /** A retrieval either raises, returns nothing (`None`), or returns a sequence of candles. */
  type Fetched<V> = Result<Option<seq<Record<V>>>, AdapterError>

  /**
   * The two retrieval operations a concrete adapter supplies: the most recent
   * `amount` candles, and the candles from `start` up to an optional `end`.
   */
  datatype CandleSource<V> = CandleSource(
    lastCandles: (string, string, int) -> Fetched<V>,
    candles: (string, string, string, Option<string>) -> Fetched<V>)

  /** The template's own retrieval operations, which are unimplemented stubs. */
  function Unimplemented<V>(): CandleSource<V> {
    CandleSource((symbol, interval, amount) => Err(NotImplemented),
                 (symbol, interval, start, end) => Err(NotImplemented))
  }

  /** How a dump ends; the dump itself returns no value. */
  datatype DumpOutcome =
    | Written
      /** neither `amount` nor `start` was given: a diagnostic and an early return */
    | MissingSelection
      /** the retrieval call raised */
    | RetrievalFailed(error: AdapterError)
      /** no candle to take the header from: the index fault after the file was opened */
    | EmptyCandles
      /** the retrieval returned `None`: indexing it faults after the file was opened */
    | NoCandles

  const CsvExtension := ".csv"

  // ---------------------------------------------------------------- dump

  /** One value row per candle, in input order. */
  function ValueRows<V>(cs: seq<Record<V>>, show: V -> string): seq<Row> {
    if cs == [] then [] else ValueRows(cs[..|cs| - 1], show) + [Cells(cs[|cs| - 1], show)]
  }

  /** A dumped table: the first candle's keys as header, then the value rows. */
  function Table<V>(cs: seq<Record<V>>, show: V -> string): seq<Row>
    requires cs != []
  {
    [Keys(cs[0])] + ValueRows(cs, show)
  }

  /** Writes retrieved candles to `file`, which is opened (truncated) before the header is taken. */
  function Store<V>(files: Files, file: string, fetched: Fetched<V>, show: V -> string): (DumpOutcome, Files) {
    match fetched
    case Err(e) => (RetrievalFailed(e), files)
    case Ok(None) => (NoCandles, files[file := []])
    case Ok(Some(cs)) =>
      if cs == [] then (EmptyCandles, files[file := []])
      else (Written, files[file := Table(cs, show)])
  }

  /** The retrieval a dump performs: `amount` takes precedence over `start`; with neither there is none. */
  function Retrieve<V>(source: CandleSource<V>, symbol: string, interval: string,
                       amount: Option<int>, start: Option<string>, end: Option<string>): Option<Fetched<V>>
  {
    if amount.Some? then Some(source.lastCandles(symbol, interval, amount.value))
    else if start.Some? then Some(source.candles(symbol, interval, start.value, end))
    else None
  }

  /** The dump: performs the selected retrieval, then stores what it returns. */
  function Dump<V>(source: CandleSource<V>, show: V -> string, files: Files, symbol: string,
                   interval: string, file: string, amount: Option<int>,
                   start: Option<string>, end: Option<string>): (DumpOutcome, Files)
  {
    match Retrieve(source, symbol, interval, amount, start, end)
    case None => (MissingSelection, files)
    case Some(fetched) => Store(files, file, fetched, show)
  }

  /** The dumped table has one header row and one row per candle, in order. */
  lemma {:induction false} TableShape<V>(cs: seq<Record<V>>, show: V -> string)
    requires cs != []
    ensures |Table(cs, show)| == |cs| + 1
    ensures Table(cs, show)[0] == Keys(cs[0])
    ensures forall i :: 0 <= i < |cs| ==> Table(cs, show)[i + 1] == Cells(cs[i], show)
  {
    ValueRowsShape(cs, show);
  }

  lemma {:induction false} ValueRowsShape<V>(cs: seq<Record<V>>, show: V -> string)
    ensures |ValueRows(cs, show)| == |cs|
    ensures forall i :: 0 <= i < |cs| ==> ValueRows(cs, show)[i] == Cells(cs[i], show)
  {
    if cs != [] {
      ValueRowsShape(cs[..|cs| - 1], show);
    }
  }

  /**
   * Selection precedence: a given `amount` selects the recent-window retrieval
   * and `start`/`end` are then ignored; otherwise a given `start` selects the
   * range retrieval; with neither, nothing is retrieved and no file changes.
   */
  lemma SelectionPrecedence<V>(source: CandleSource<V>, show: V -> string, files: Files,
                               symbol: string, interval: string, file: string,
                               amount: Option<int>, start: Option<string>, end: Option<string>,
                               start': Option<string>, end': Option<string>)
    ensures amount.Some? ==>
      Retrieve(source, symbol, interval, amount, start, end)
        == Retrieve(source, symbol, interval, amount, start', end')
        == Some(source.lastCandles(symbol, interval, amount.value))
    ensures amount.None? && start.Some? ==>
      Retrieve(source, symbol, interval, amount, start, end)
        == Some(source.candles(symbol, interval, start.value, end))
    ensures amount.None? && start.None? ==>
      Dump(source, show, files, symbol, interval, file, amount, start, end) == (MissingSelection, files)
  {
  }

  /**
   * A dump changes at most `file`: nothing when no retrieval is selected or
   * the retrieval raises, an empty file when the retrieval returned no
   * candles or `None`, otherwise the table of the retrieved candles, whose
   * header is the first candle's keys.
   */
  lemma DumpEffect<V>(source: CandleSource<V>, show: V -> string, files: Files,
                      symbol: string, interval: string, file: string,
                      amount: Option<int>, start: Option<string>, end: Option<string>)
    ensures var (outcome, files') := Dump(source, show, files, symbol, interval, file, amount, start, end);
      && (outcome == MissingSelection <==> amount.None? && start.None?)
      && (outcome.MissingSelection? || outcome.RetrievalFailed? ==> files' == files)
      && (outcome.EmptyCandles? || outcome.NoCandles? ==> files' == files[file := []])
      && (outcome.Written? ==> file in files' && |files'[file]| >= 2 && files' == files[file := files'[file]])
    ensures var (outcome, files') := Dump(source, show, files, symbol, interval, file, amount, start, end);
      match Retrieve(source, symbol, interval, amount, start, end)
      case None => outcome == MissingSelection && files' == files
      case Some(Err(e)) => outcome == RetrievalFailed(e) && files' == files
      case Some(Ok(None)) => outcome == NoCandles && files' == files[file := []]
      case Some(Ok(Some(cs))) =>
        if cs == [] then outcome == EmptyCandles && files' == files[file := []]
        else
          && outcome == Written
          && files' == files[file := Table(cs, show)]
          && |files'[file]| == |cs| + 1
          && files'[file][0] == Keys(cs[0])
          && forall i :: 0 <= i < |cs| ==> files'[file][i + 1] == Cells(cs[i], show)
  {
    var fetched := Retrieve(source, symbol, interval, amount, start, end);
    if fetched.Some? && fetched.value.Ok? && fetched.value.value.Some? && fetched.value.value.value != [] {
      TableShape(fetched.value.value.value, show);
    }
  }

  /** With the template's own stubs, any selected dump fails with the retrieval's fault and writes nothing. */
  lemma TemplateCannotDump<V>(show: V -> string, files: Files, symbol: string, interval: string,
                              file: string, amount: Option<int>, start: Option<string>, end: Option<string>)
    requires amount.Some? || start.Some?
    ensures Dump(Unimplemented<V>(), show, files, symbol, interval, file, amount, start, end)
              == (RetrievalFailed(NotImplemented), files)
  {
  }

  // ---------------------------------------------------------------- load

  /** What makes a load fail. */
  datatype LoadError =
      /** the path contains no ".csv": the -1 sentinel, nothing is read */
    | NotCsv
    | FileNotFound
      /** a row has no cell at this column index */
    | MissingColumn(index: nat)
      /** a cell that does not parse as a number */
    | NotANumber(cell: string)

  /** Column `k` of a row, parsed as a number. */
  function Column<F>(row: Row, k: nat, parse: string -> Option<F>): Result<F, LoadError> {
    if k >= |row| then Err(MissingColumn(k))
    else match parse(row[k])
      case None => Err(NotANumber(row[k]))
      case Some(v) => Ok(v)
  }

  /** One data row: columns 0 to 4, parsed left to right, become ts, open, high, low and close. */
  function DecodeRow<F>(row: Row, parse: string -> Option<F>): Result<Candle<F>, LoadError> {
    var ts :- Column(row, 0, parse);
    var open :- Column(row, 1, parse);
    var high :- Column(row, 2, parse);
    var low :- Column(row, 3, parse);
    var close :- Column(row, 4, parse);
    Ok(Candle(ts, open, high, low, close))
  }

  /** All data rows in file order; the first row that fails decides the error. */
  function DecodeRows<F>(rows: seq<Row>, parse: string -> Option<F>): Result<seq<Candle<F>>, LoadError> {
    if rows == [] then Ok([])
    else
      var init :- DecodeRows(rows[..|rows| - 1], parse);
      var c :- DecodeRow(rows[|rows| - 1], parse);
      Ok(init + [c])
  }

  /** A whole file: the first row is skipped, whatever it holds. */
  function DecodeTable<F>(rows: seq<Row>, parse: string -> Option<F>): Result<seq<Candle<F>>, LoadError> {
    if rows == [] then Ok([]) else DecodeRows(rows[1..], parse)
  }

  /** The load: the extension guard, then the file's rows. */
  function Load<F>(file: string, files: Files, parse: string -> Option<F>): Result<seq<Candle<F>>, LoadError> {
    if Find(file, CsvExtension) == -1 then Err(NotCsv)
    else if file !in files then Err(FileNotFound)
    else DecodeTable(files[file], parse)
  }

  /** A row a load accepts: at least five cells, the first five numeric. */
  predicate WellFormed<F>(row: Row, parse: string -> Option<F>) {
    |row| >= 5 && forall k :: 0 <= k < 5 ==> parse(row[k]).Some?
  }

  function Decoded<F>(row: Row, parse: string -> Option<F>): Candle<F>
    requires WellFormed(row, parse)
  {
    Candle(parse(row[0]).value, parse(row[1]).value, parse(row[2]).value,
           parse(row[3]).value, parse(row[4]).value)
  }

  /**
   * A row decodes exactly when it is well formed, to the candle of its first
   * five cells; cells beyond the fifth are ignored; a failure is a row error.
   */
  lemma DecodeRowSpec<F>(row: Row, parse: string -> Option<F>)
    ensures DecodeRow(row, parse).Ok? <==> WellFormed(row, parse)
    ensures WellFormed(row, parse) ==> DecodeRow(row, parse) == Ok(Decoded(row, parse))
    ensures |row| >= 5 ==> DecodeRow(row, parse) == DecodeRow(row[..5], parse)
    ensures DecodeRow(row, parse).Err? ==>
      DecodeRow(row, parse).error.MissingColumn? || DecodeRow(row, parse).error.NotANumber?
  {
  }

  /**
   * The data rows decode exactly when every one is well formed, to one candle
   * per row in file order; otherwise the error is a row error and no partial
   * sequence is returned.
   */
  lemma {:induction false} DecodeRowsSpec<F>(rows: seq<Row>, parse: string -> Option<F>)
    ensures DecodeRows(rows, parse).Ok? <==> forall i :: 0 <= i < |rows| ==> WellFormed(rows[i], parse)
    ensures DecodeRows(rows, parse).Ok? ==>
      |DecodeRows(rows, parse).value| == |rows| &&
      forall i :: 0 <= i < |rows| ==> DecodeRows(rows, parse).value[i] == Decoded(rows[i], parse)
    ensures DecodeRows(rows, parse).Err? ==>
      DecodeRows(rows, parse).error.MissingColumn? || DecodeRows(rows, parse).error.NotANumber?
  {
    if rows != [] {
      var init := rows[..|rows| - 1];
      var last := rows[|rows| - 1];
      DecodeRowsSpec(init, parse);
      DecodeRowSpec(last, parse);
      assert forall i :: 0 <= i < |init| ==> init[i] == rows[i];
    }
  }

  /** Once a prefix of the data rows fails, the whole file fails with the same error. */
  lemma {:induction false} DecodeRowsPrefixError<F>(rows: seq<Row>, k: nat, parse: string -> Option<F>)
    requires k <= |rows|
    requires DecodeRows(rows[..k], parse).Err?
    ensures DecodeRows(rows, parse) == DecodeRows(rows[..k], parse)
    decreases |rows| - k
  {
    if k < |rows| {
      assert rows[..k + 1][..k] == rows[..k];
      DecodeRowsPrefixError(rows, k + 1, parse);
      assert rows[..|rows|] == rows;
    } else {
      assert rows[..k] == rows;
    }
  }

  /**
   * A file loads to one candle per row after the first (none for an empty
   * file), each from its row's first five cells, in file order.
   */
  lemma DecodeTableSpec<F>(rows: seq<Row>, parse: string -> Option<F>)
    ensures rows == [] ==> DecodeTable(rows, parse) == Ok([])
    ensures DecodeTable(rows, parse).Ok? <==> forall i :: 1 <= i < |rows| ==> WellFormed(rows[i], parse)
    ensures DecodeTable(rows, parse).Ok? ==>
      |DecodeTable(rows, parse).value| == if rows == [] then 0 else |rows| - 1
    ensures DecodeTable(rows, parse).Ok? ==>
      forall i :: 1 <= i < |rows| ==> DecodeTable(rows, parse).value[i - 1] == Decoded(rows[i], parse)
    ensures DecodeTable(rows, parse).Err? ==>
      DecodeTable(rows, parse).error.MissingColumn? || DecodeTable(rows, parse).error.NotANumber?
  {
    if rows != [] {
      DecodeRowsSpec(rows[1..], parse);
      assert forall i :: 1 <= i < |rows| ==> rows[1..][i - 1] == rows[i];
    }
  }

  /** The header row's content never matters. */
  lemma HeaderIgnored<F>(header: Row, header': Row, data: seq<Row>, parse: string -> Option<F>)
    ensures DecodeTable([header] + data, parse) == DecodeTable([header'] + data, parse)
  {
  }

  /**
   * The extension guard: a load reports NotCsv exactly when the path contains
   * no ".csv", and then its result does not depend on any file.
   */
  lemma LoadGuard<F>(file: string, files: Files, files': Files, parse: string -> Option<F>)
    ensures Load(file, files, parse) == Err(NotCsv) <==> Find(file, CsvExtension) == -1
    ensures Find(file, CsvExtension) == -1 ==> Load(file, files, parse) == Load(file, files', parse)
  {
    if Find(file, CsvExtension) != -1 && file in files {
      DecodeTableSpec(files[file], parse);
    }
  }

  /** The guard accepts ".csv" anywhere in the path, so "x.csv.txt" is accepted. */
  lemma CsvAnywhereAccepted<F>(prefix: string, suffix: string, files: Files, parse: string -> Option<F>)
    ensures Load(prefix + CsvExtension + suffix, files, parse) != Err(NotCsv)
  {
    FindsInfix(prefix, CsvExtension, suffix);
    LoadGuard(prefix + CsvExtension + suffix, files, files, parse);
  }

  /** A path such as "data.txt" is refused without reading. */
  lemma TxtRejected<F>(files: Files, parse: string -> Option<F>)
    ensures Load("data.txt", files, parse) == Err(NotCsv)
  {
    var s := "data.txt";
    forall i ensures !OccursAt(s, CsvExtension, i) {
      if 0 <= i && i + 4 <= |s| {
        assert s[i..i + 4][1] == s[i + 1] != 'c';
      }
    }
  }

  // ---------------------------------------------------------------- round trip

  /**
   * Loading a dumped table gives, for each candle in order, its first five
   * values, provided every record has at least five entries and parsing
   * undoes printing.
   */
  lemma {:induction false} ValueRowsRoundTrip<V>(cs: seq<Record<V>>, show: V -> string, parse: string -> Option<V>)
    requires forall i :: 0 <= i < |cs| ==> |cs[i]| >= 5
    requires forall v :: parse(show(v)) == Some(v)
    ensures DecodeRows(ValueRows(cs, show), parse).Ok?
    ensures |DecodeRows(ValueRows(cs, show), parse).value| == |cs|
    ensures forall i :: 0 <= i < |cs| ==>
      DecodeRows(ValueRows(cs, show), parse).value[i]
        == Candle(cs[i][0].value, cs[i][1].value, cs[i][2].value, cs[i][3].value, cs[i][4].value)
  {
    ValueRowsShape(cs, show);
    var rows := ValueRows(cs, show);
    forall i | 0 <= i < |rows|
      ensures WellFormed(rows[i], parse)
      ensures Decoded(rows[i], parse)
        == Candle(cs[i][0].value, cs[i][1].value, cs[i][2].value, cs[i][3].value, cs[i][4].value)
    {
      assert rows[i] == Cells(cs[i], show);
      assert forall k :: 0 <= k < 5 ==> parse(rows[i][k]) == Some(cs[i][k].value);
    }
    DecodeRowsSpec(rows, parse);
  }

  /** Round trip: dumping candles with the fixed schema and loading the table gives them back. */
  lemma RoundTrip<F>(candles: seq<Candle<F>>, show: F -> string, parse: string -> Option<F>)
    requires candles != []
    requires forall v :: parse(show(v)) == Some(v)
    ensures var records := seq(|candles|, i requires 0 <= i < |candles| => ToRecord(candles[i]));
      Table(records, show)[0] == Schema && DecodeTable(Table(records, show), parse) == Ok(candles)
  {
    var records := seq(|candles|, i requires 0 <= i < |candles| => ToRecord(candles[i]));
    ValueRowsRoundTrip(records, show, parse);
    var table := Table(records, show);
    assert table[1..] == ValueRows(records, show);
    var r := DecodeTable(table, parse).value;
    forall i | 0 <= i < |candles| ensures r[i] == candles[i] {
      assert records[i] == ToRecord(candles[i]);
    }
    assert |r| == |candles|;
    assert r == candles;
    assert Keys(records[0]) == Schema;
  }

  /**
   * A dump to a ".csv" path followed by a load of that path returns, in order,
   * the first five values of each retrieved candle; when nothing was retrieved
   * the truncated file loads as empty.
   */
  lemma DumpThenLoad<V>(source: CandleSource<V>, show: V -> string, parse: string -> Option<V>,
                        files: Files, symbol: string, interval: string, file: string,
                        amount: Option<int>, start: Option<string>, end: Option<string>,
                        cs: seq<Record<V>>)
    requires Find(file, CsvExtension) != -1
    requires forall v :: parse(show(v)) == Some(v)
    requires Retrieve(source, symbol, interval, amount, start, end) == Some(Ok(Some(cs)))
    requires forall i :: 0 <= i < |cs| ==> |cs[i]| >= 5
    ensures var files' := Dump(source, show, files, symbol, interval, file, amount, start, end).1;
      && Load(file, files', parse).Ok?
      && |Load(file, files', parse).value| == |cs|
      && forall i :: 0 <= i < |cs| ==>
           Load(file, files', parse).value[i]
             == Candle(cs[i][0].value, cs[i][1].value, cs[i][2].value, cs[i][3].value, cs[i][4].value)
  {
    if cs != [] {
      assert Table(cs, show)[1..] == ValueRows(cs, show);
      ValueRowsRoundTrip(cs, show, parse);
    }
  }

  /** A dump whose retrieval returned `None` leaves a truncated file that loads as empty. */
  lemma NothingRetrievedLoadsEmpty<V>(source: CandleSource<V>, show: V -> string, parse: string -> Option<V>,
                                      files: Files, symbol: string, interval: string, file: string,
                                      amount: Option<int>, start: Option<string>, end: Option<string>)
    requires Find(file, CsvExtension) != -1
    requires Retrieve(source, symbol, interval, amount, start, end) == Some(Ok(None))
    ensures Dump(source, show, files, symbol, interval, file, amount, start, end).0 == NoCandles
    ensures Load(file, Dump(source, show, files, symbol, interval, file, amount, start, end).1, parse) == Ok([])
  {
  }
}
