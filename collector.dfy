/**
  `fetch_and_save_data` and `main` as functions of the files' contents: the
  choice of request, the normalisation of the provider's index, the
  strictly-newer filter, and the append-or-rewrite decision.

  The data directory is a map from ticker to the bytes of its series file; a
  ticker without a key has no file.
*/
module Collector {
  import opened Wrappers
  import opened CsvBytes
  import opened Timestamps
  import opened LastLine
  import opened SeriesFile

  /** What `yf.download` is asked for: the provider's whole 60-day window, or
      everything from a calendar day on. */
  datatype Request = Period60d | StartDate(day: int)

  /** Resume points older than this many days fall back to the whole window. */
  const LIMIT_DAYS: int := 59

  /** One row of the provider's table: its index entry and the rendered value
      of each column. */
  datatype RawRow = RawRow(index: Stamp, values: seq<seq<byte>>)

  datatype Table = Table(columns: seq<seq<byte>>, rows: seq<RawRow>)

  /** The provider's answer, or the exception it raised. */
  datatype Download = Fetched(table: Table) | Raised

  /** `data.empty` (line 101): no rows, or no columns. */
  predicate IsEmpty(t: Table)
  {
    t.rows == [] || t.columns == []
  }

  /** A resume point made aware: a naive one is taken as Asia/Kolkata
      (lines 84-86). */
  function AwareResume(s: Stamp): (r: Stamp)
    ensures r.Aware?
    ensures s.Aware? ==> r == s
    ensures s.Naive? ==> r.offset == KOLKATA_OFFSET && WallClock(r) == s.wall
  {
    if s.Naive? then Localize(s, KOLKATA_OFFSET) else s
  }

  /** Lines 78-99: which data to download. */
  function ChooseRequest(resume: Option<Stamp>, now: int): (r: Request)
    ensures resume.None? ==> r == Period60d
    ensures resume.Some? ==>
              (r == Period60d <==> AwareResume(resume.value).instant < now - LIMIT_DAYS * SECONDS_PER_DAY)
    ensures r.StartDate? ==> resume.Some? && r.day == LocalDate(AwareResume(resume.value))
  {
    match resume
    case None => Period60d
    case Some(s) =>
      var start := AwareResume(s);
      var limit := now - LIMIT_DAYS * SECONDS_PER_DAY;
      if Convert(start, UTC_OFFSET).instant < limit then Period60d
      else StartDate(LocalDate(start))
  }

  /** The instant of a provider index entry: a naive entry is taken as UTC
      (line 115), and converting to Asia/Kolkata (line 118) keeps it. */
  function IndexInstant(s: Stamp): (t: int)
    ensures s.Naive? ==> t == s.wall
    ensures s.Aware? ==> t == s.instant
  {
    var aware := if s.Naive? then Localize(s, UTC_OFFSET) else s;
    Convert(aware, KOLKATA_OFFSET).instant
  }

  function DisplayRow(r: RawRow): Row
  {
    Row(IndexInstant(r.index), r.values)
  }

  /** The provider's rows after lines 113-118. */
  function ToDisplayZone(rows: seq<RawRow>): (out: seq<Row>)
  {
    seq(|rows|, i requires 0 <= i < |rows| => DisplayRow(rows[i]))
  }

  /** The instant rows are compared with (lines 121-125). */
  function SinceInstant(resume: Stamp): int
  {
    Convert(AwareResume(resume), KOLKATA_OFFSET).instant
  }

  /** `data[data.index > start_dt]` (line 128): the rows strictly after
      `since`, in their order. */
  function NewRows(rows: seq<Row>, since: int): (r: seq<Row>)
    ensures |r| <= |rows|
    ensures forall x :: x in r <==> x in rows && x.instant > since
  {
    if rows == [] then []
    else (if rows[0].instant > since then [rows[0]] else []) + NewRows(rows[1..], since)
  }

  predicate Ascending(rows: seq<Row>)
  {
    forall i, j :: 0 <= i < j < |rows| ==> rows[i].instant <= rows[j].instant
  }

  predicate StrictlyAscending(rows: seq<Row>)
  {
    forall i, j :: 0 <= i < j < |rows| ==> rows[i].instant < rows[j].instant
  }

  predicate WellFormedTable(t: Table)
  {
    WellFormedValues(t.columns) && forall i :: 0 <= i < |t.rows| ==> WellFormedValues(t.rows[i].values)
  }

  function Lookup(files: map<string, seq<byte>>, ticker: string): Option<seq<byte>>
  {
    if ticker in files then Some(files[ticker]) else None
  }

  /** Lines 68-73: the resume point, when the file exists. */
  function ResumeOf(files: map<string, seq<byte>>, ticker: string, parse: seq<byte> -> Option<Stamp>): Option<Stamp>
  {
    if ticker in files then ResumePoint(files[ticker], parse) else None
  }

  /** Lines 101-139: what the download does to the files, given the resume
      point read from the ticker's existing file. With a resume point the file
      only grows; no other ticker's file changes; a failed or empty download
      changes nothing. */
  function Store(files: map<string, seq<byte>>, ticker: string, c: Codec,
                 resume: Option<Stamp>, d: Download): (r: map<string, seq<byte>>)
    requires resume.Some? ==> ticker in files
    ensures forall k :: k != ticker ==> Lookup(r, k) == Lookup(files, k)
    ensures ticker in files ==> ticker in r
    ensures resume.Some? ==> files[ticker] <= r[ticker]
    ensures d.Raised? || IsEmpty(d.table) ==> r == files
  {
    match d
    case Raised => files
    case Fetched(table) =>
      if IsEmpty(table) then files
      else
        var rows := ToDisplayZone(table.rows);
        match resume
        case Some(s) =>
          var newer := NewRows(rows, SinceInstant(s));
          if newer == [] then files
          else files[ticker := files[ticker] + RenderRows(c, newer)]
        case None =>
          files[ticker := HeaderLine(table.columns) + RenderRows(c, rows)]
  }

  /** Lines 65-139 once the download `d` is known: read the resume point,
      then store. */
  function Reconcile(files: map<string, seq<byte>>, ticker: string, c: Codec, d: Download): map<string, seq<byte>>
  {
    Store(files, ticker, c, ResumeOf(files, ticker, c.parse), d)
  }

  /** `fetch_and_save_data(ticker)`, with the provider's answer to each
      request given as `provider`. */
  function Collect(files: map<string, seq<byte>>, ticker: string, c: Codec,
                   provider: (string, Request) -> Download, now: int): map<string, seq<byte>>
  {
    var request := ChooseRequest(ResumeOf(files, ticker, c.parse), now);
    Reconcile(files, ticker, c, provider(ticker, request))
  }

  /** The loop of `main` over `tickers`, in order. `clock(t)` is the reading
      of `datetime.now` (line 89) taken while ticker `t` is processed. */
  function CollectAll(files: map<string, seq<byte>>, tickers: seq<string>, c: Codec,
                      provider: (string, Request) -> Download, clock: string -> int): map<string, seq<byte>>
  {
    if tickers == [] then files
    else
      var t := tickers[|tickers| - 1];
      Collect(CollectAll(files, tickers[..|tickers| - 1], c, provider, clock), t, c, provider, clock(t))
  }
}
