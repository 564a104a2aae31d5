/**
  The data directory as the program changes it: one series file per ticker,
  read and then appended to or rewritten, ticker by ticker.
*/
module DataDirectory {
  import opened Wrappers
  import opened CsvBytes
  import opened Timestamps
  import opened LastLine
  import opened SeriesFile
  import opened Collector

  const TICKERS: seq<string> :=
    ["^NSEI", "^BSESN", "^NSEBANK", "RELIANCE.NS", "TCS.NS", "HDFCBANK.NS", "INFY.NS", "TATAMOTORS.NS"]

  class DataDir {
    /** The bytes of each ticker's series file. */
    var files: map<string, seq<byte>>

    constructor (initial: map<string, seq<byte>>)
      ensures files == initial
    {
      files := initial;
    }

    /** `fetch_and_save_data(ticker)`. */
    method FetchAndSave(ticker: string, c: Codec, provider: (string, Request) -> Download, now: int)
      modifies this
      ensures files == Collect(old(files), ticker, c, provider, now)
    {
      var startDt: Option<Stamp> := None;
      if ticker in files {
        startDt := GetLastDatetime(files[ticker], c.parse);
      }
      assert startDt == ResumeOf(files, ticker, c.parse);
      var download := provider(ticker, ChooseRequest(startDt, now));
      ghost var target := Store(files, ticker, c, startDt, download);
      assert target == Collect(files, ticker, c, provider, now);
      if download.Raised? {
        // the exception is caught and logged at line 141
        return;
      }
      var data := download.table;
      if IsEmpty(data) {
        return;
      }
      var rows := ToDisplayZone(data.rows);
      if startDt.Some? {
        var newData := NewRows(rows, SinceInstant(startDt.value));
        if newData == [] {
          return;
        }
        files := files[ticker := files[ticker] + RenderRows(c, newData)];
      } else {
        files := files[ticker := HeaderLine(data.columns) + RenderRows(c, rows)];
      }
    }

    /** `main`: every ticker of `TICKERS`, in order, each with its own reading
      of the clock. */
    method Run(c: Codec, provider: (string, Request) -> Download, clock: string -> int)
      modifies this
      ensures files == CollectAll(old(files), TICKERS, c, provider, clock)
    {
      for i := 0 to |TICKERS|
        invariant files == CollectAll(old(files), TICKERS[..i], c, provider, clock)
      {
        assert TICKERS[..i + 1][..i] == TICKERS[..i];
        FetchAndSave(TICKERS[i], c, provider, clock(TICKERS[i]));
      }
      assert TICKERS[..|TICKERS|] == TICKERS;
    }
  }
}
