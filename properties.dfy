/**
  What the collector promises across calls: the request reaches back far
  enough, only strictly newer rows are appended and in order, a file written
  reads back the last row written, a second run with the same data changes
  nothing, a series stays ascending without duplicates, and each ticker's file
  depends on that ticker alone.
*/
module CollectorProperties {
  import opened Wrappers
  import opened CsvBytes
  import opened Timestamps
  import opened LastLine
  import opened SeriesFile
  import opened Collector
  import opened DataDirectory

  /** A start-date request begins at the local midnight before the resume
      point, and that midnight lies less than 60 days before now: inside the
      provider's window. */
  lemma StartDateWithinWindow(resume: Option<Stamp>, now: int)
    requires ChooseRequest(resume, now).StartDate?
    ensures var s := AwareResume(resume.value);
            var midnight := ChooseRequest(resume, now).day * SECONDS_PER_DAY - s.offset;
            midnight <= s.instant < midnight + SECONDS_PER_DAY
            && now - midnight < (LIMIT_DAYS + 1) * SECONDS_PER_DAY
  {
  }

  /** Filtering keeps the batch's order: it distributes over concatenation. */
  lemma {:induction false} NewRowsConcat(a: seq<Row>, b: seq<Row>, since: int)
    ensures NewRows(a + b, since) == NewRows(a, since) + NewRows(b, since)
    decreases |a|
  {
    if a == [] {
      assert a + b == b;
    } else {
      assert (a + b)[0] == a[0];
      assert (a + b)[1..] == a[1..] + b;
      NewRowsConcat(a[1..], b, since);
    }
  }

  /** Nothing is left after filtering exactly when no row is strictly after
      `since`. */
  lemma NewRowsEmpty(rows: seq<Row>, since: int)
    ensures NewRows(rows, since) == [] <==> forall i :: 0 <= i < |rows| ==> rows[i].instant <= since
  {
    var r := NewRows(rows, since);
    if r != [] {
      assert r[0] in r;
    }
  }

  /** On an ascending batch the new rows are the suffix after the resume
      point. */
  lemma {:induction false} NewRowsOfAscending(rows: seq<Row>, since: int)
    requires Ascending(rows)
    ensures var r := NewRows(rows, since);
            r == rows[|rows| - |r|..]
            && forall i :: 0 <= i < |rows| - |r| ==> rows[i].instant <= since
    decreases |rows|
  {
    if rows != [] {
      if rows[0].instant > since {
        forall i | 0 <= i < |rows| ensures rows[i].instant > since {
          assert rows[0].instant <= rows[i].instant;
        }
        NewRowsAllAfter(rows, since);
        assert rows[0..] == rows;
      } else {
        var t := rows[1..];
        assert Ascending(t);
        NewRowsOfAscending(t, since);
        var r := NewRows(t, since);
        assert NewRows(rows, since) == [] + r == r;
        assert t[|t| - |r|..] == rows[|rows| - |r|..];
        forall i | 0 <= i < |rows| - |r| ensures rows[i].instant <= since {
          if i > 0 {
            assert rows[i] == t[i - 1];
          }
        }
      }
    }
  }

  /** A batch entirely after `since` is kept whole. */
  lemma {:induction false} NewRowsAllAfter(rows: seq<Row>, since: int)
    requires forall i :: 0 <= i < |rows| ==> rows[i].instant > since
    ensures NewRows(rows, since) == rows
    decreases |rows|
  {
    if rows != [] {
      assert forall i :: 0 <= i < |rows[1..]| ==> rows[1..][i].instant > since by {
        forall i | 0 <= i < |rows[1..]| ensures rows[1..][i].instant > since {
          assert rows[1..][i] == rows[i + 1];
        }
      }
      NewRowsAllAfter(rows[1..], since);
      assert [rows[0]] + rows[1..] == rows;
    }
  }

  lemma NewRowsWellFormed(rows: seq<Row>, since: int)
    requires AllWellFormed(rows)
    ensures AllWellFormed(NewRows(rows, since))
  {
    var r := NewRows(rows, since);
    forall i | 0 <= i < |r| ensures WellFormedRow(r[i]) {
      assert r[i] in rows;
    }
  }

  lemma DisplayWellFormed(table: Table)
    requires WellFormedTable(table)
    ensures AllWellFormed(ToDisplayZone(table.rows))
  {
  }

  /** A re-run's resume point is the batch maximum, so an ascending batch has
      nothing after it. */
  lemma NothingAfterLast(rows: seq<Row>)
    requires Ascending(rows) && rows != []
    ensures NewRows(rows, rows[|rows| - 1].instant) == []
  {
    NewRowsEmpty(rows, rows[|rows| - 1].instant);
  }

  /** Without a resume point, the file is the header and the whole batch, and
      its resume point becomes the batch's last instant. */
  lemma RewriteThenResume(files: map<string, seq<byte>>, ticker: string, c: Codec, table: Table)
    requires ValidCodec(c) && WellFormedTable(table) && table.rows != []
    ensures var after := Store(files, ticker, c, None, Fetched(table));
            var rows := ToDisplayZone(table.rows);
            ticker in after && after[ticker] == HeaderLine(table.columns) + RenderRows(c, rows)
            && ResumeOf(after, ticker, c.parse) == Some(Aware(rows[|rows| - 1].instant, KOLKATA_OFFSET))
  {
    var rows := ToDisplayZone(table.rows);
    var after := Store(files, ticker, c, None, Fetched(table));
    assert ticker in after && after[ticker] == HeaderLine(table.columns) + RenderRows(c, rows);
    assert ResumePoint(HeaderLine(table.columns) + RenderRows(c, rows), c.parse)
           == Some(Aware(rows[|rows| - 1].instant, KOLKATA_OFFSET)) by {
      DisplayWellFormed(table);
      assert WellFormedRow(rows[|rows| - 1]);
      ResumeAfterRows(c, HeaderLine(table.columns), rows);
    }
  }

  /** With a resume point and rows after it, exactly those rows are appended,
      and the resume point becomes the last of them. */
  lemma AppendThenResume(files: map<string, seq<byte>>, ticker: string, c: Codec, s: Stamp, table: Table)
    requires ValidCodec(c) && WellFormedTable(table)
    requires ticker in files && EndsLine(files[ticker])
    requires NewRows(ToDisplayZone(table.rows), SinceInstant(s)) != []
    ensures var after := Store(files, ticker, c, Some(s), Fetched(table));
            var added := NewRows(ToDisplayZone(table.rows), SinceInstant(s));
            ticker in after && after[ticker] == files[ticker] + RenderRows(c, added)
            && ResumeOf(after, ticker, c.parse) == Some(Aware(added[|added| - 1].instant, KOLKATA_OFFSET))
  {
    var rows := ToDisplayZone(table.rows);
    var added := NewRows(rows, SinceInstant(s));
    var after := Store(files, ticker, c, Some(s), Fetched(table));
    assert ticker in after && after[ticker] == files[ticker] + RenderRows(c, added);
    assert ResumePoint(files[ticker] + RenderRows(c, added), c.parse)
           == Some(Aware(added[|added| - 1].instant, KOLKATA_OFFSET)) by {
      DisplayWellFormed(table);
      NewRowsWellFormed(rows, SinceInstant(s));
      assert WellFormedRow(added[|added| - 1]);
      ResumeAfterRows(c, files[ticker], added);
    }
  }

  /** A resume point at the batch maximum takes nothing from an ascending
      batch. */
  lemma StoreAtMaximum(files: map<string, seq<byte>>, ticker: string, c: Codec, s: Stamp, table: Table)
    requires ticker in files && table.rows != [] && Ascending(ToDisplayZone(table.rows))
    requires SinceInstant(s) == ToDisplayZone(table.rows)[|table.rows| - 1].instant
    ensures Store(files, ticker, c, Some(s), Fetched(table)) == files
  {
    NothingAfterLast(ToDisplayZone(table.rows));
  }

  /** Idempotence: running again with the same ascending batch changes nothing,
      provided an existing file ends with a newline (as every file the
      collector writes does). */
  lemma ReconcileIdempotent(files: map<string, seq<byte>>, ticker: string, c: Codec, d: Download)
    requires ValidCodec(c)
    requires d.Fetched? ==> WellFormedTable(d.table) && Ascending(ToDisplayZone(d.table.rows))
    requires ticker in files ==> EndsLine(files[ticker])
    ensures Reconcile(Reconcile(files, ticker, c, d), ticker, c, d) == Reconcile(files, ticker, c, d)
  {
    if d.Fetched? && !IsEmpty(d.table) {
      var table := d.table;
      var rows := ToDisplayZone(table.rows);
      var resume := ResumeOf(files, ticker, c.parse);
      var once := Store(files, ticker, c, resume, d);
      if resume.None? {
        RewriteThenResume(files, ticker, c, table);
        StoreAtMaximum(once, ticker, c, ResumeOf(once, ticker, c.parse).value, table);
      } else {
        var since := SinceInstant(resume.value);
        var added := NewRows(rows, since);
        if added != [] {
          AppendThenResume(files, ticker, c, resume.value, table);
          NewRowsOfAscending(rows, since);
          assert added[|added| - 1] == rows[|rows| - 1];
          StoreAtMaximum(once, ticker, c, ResumeOf(once, ticker, c.parse).value, table);
        }
      }
    }
  }

  lemma StrictlyAscendingIsAscending(rows: seq<Row>)
    requires StrictlyAscending(rows)
    ensures Ascending(rows)
  {
  }

  /** Appending rows that all come after a strictly ascending series keeps it
      strictly ascending. */
  lemma ConcatStrictlyAscending(prior: seq<Row>, added: seq<Row>)
    requires StrictlyAscending(prior) && StrictlyAscending(added) && prior != []
    requires forall i :: 0 <= i < |added| ==> added[i].instant > prior[|prior| - 1].instant
    ensures StrictlyAscending(prior + added)
  {
    var s := prior + added;
    forall i, j | 0 <= i < j < |s| ensures s[i].instant < s[j].instant {
      if j >= |prior| && i < |prior| {
        assert s[i].instant <= prior[|prior| - 1].instant;
      }
    }
  }

  lemma ConcatWellFormed(a: seq<Row>, b: seq<Row>)
    requires AllWellFormed(a) && AllWellFormed(b)
    ensures AllWellFormed(a + b)
  {
    forall i | 0 <= i < |a + b| ensures WellFormedRow((a + b)[i]) {
      if i >= |a| {
        assert (a + b)[i] == b[i - |a|];
      }
    }
  }

  /** The series invariant: a file that is a header and a strictly ascending
      series stays one, extended by exactly the batch rows after its last row. */
  lemma ReconcileKeepsSeries(files: map<string, seq<byte>>, ticker: string, c: Codec,
                             columns: seq<seq<byte>>, prior: seq<Row>, table: Table)
    requires ValidCodec(c)
    requires ticker in files && files[ticker] == HeaderLine(columns) + RenderRows(c, prior)
    requires prior != [] && AllWellFormed(prior) && StrictlyAscending(prior)
    requires WellFormedTable(table) && StrictlyAscending(ToDisplayZone(table.rows))
    ensures var after := Reconcile(files, ticker, c, Fetched(table));
            var added := NewRows(ToDisplayZone(table.rows), prior[|prior| - 1].instant);
            ticker in after && after[ticker] == HeaderLine(columns) + RenderRows(c, prior + added)
            && AllWellFormed(prior + added) && StrictlyAscending(prior + added)
  {
    var last := prior[|prior| - 1];
    assert ResumeOf(files, ticker, c.parse) == Some(Aware(last.instant, KOLKATA_OFFSET)) by {
      assert WellFormedRow(last);
      ResumeAfterRows(c, HeaderLine(columns), prior);
    }
    StoreExtendsSeries(files, ticker, c, columns, prior, Aware(last.instant, KOLKATA_OFFSET), table);
  }

  /** The step of the series invariant once the resume point is known to be
      the series' last row. */
  lemma StoreExtendsSeries(files: map<string, seq<byte>>, ticker: string, c: Codec,
                           columns: seq<seq<byte>>, prior: seq<Row>, s: Stamp, table: Table)
    requires ticker in files && files[ticker] == HeaderLine(columns) + RenderRows(c, prior)
    requires prior != [] && AllWellFormed(prior) && StrictlyAscending(prior)
    requires SinceInstant(s) == prior[|prior| - 1].instant
    requires WellFormedTable(table) && StrictlyAscending(ToDisplayZone(table.rows))
    ensures var after := Store(files, ticker, c, Some(s), Fetched(table));
            var added := NewRows(ToDisplayZone(table.rows), prior[|prior| - 1].instant);
            ticker in after && after[ticker] == HeaderLine(columns) + RenderRows(c, prior + added)
            && AllWellFormed(prior + added) && StrictlyAscending(prior + added)
  {
    DisplayWellFormed(table);
    ExtendSeries(prior, ToDisplayZone(table.rows));
    StoreSeriesContent(files, ticker, c, columns, prior, s, table);
  }

  lemma StoreSeriesContent(files: map<string, seq<byte>>, ticker: string, c: Codec,
                           columns: seq<seq<byte>>, prior: seq<Row>, s: Stamp, table: Table)
    requires ticker in files && files[ticker] == HeaderLine(columns) + RenderRows(c, prior)
    requires table.columns != []
    ensures var after := Store(files, ticker, c, Some(s), Fetched(table));
            var added := NewRows(ToDisplayZone(table.rows), SinceInstant(s));
            ticker in after && after[ticker] == HeaderLine(columns) + RenderRows(c, prior + added)
  {
    var added := NewRows(ToDisplayZone(table.rows), SinceInstant(s));
    StoreAppendsNewRows(files, ticker, c, s, table);
    RenderRowsAppend(c, prior, added);
  }

  /** A strictly ascending series extended by the rows of a strictly ascending
      batch after its last row is a strictly ascending series. */
  lemma ExtendSeries(prior: seq<Row>, rows: seq<Row>)
    requires prior != [] && AllWellFormed(prior) && StrictlyAscending(prior)
    requires AllWellFormed(rows) && StrictlyAscending(rows)
    ensures var added := NewRows(rows, prior[|prior| - 1].instant);
            AllWellFormed(prior + added) && StrictlyAscending(prior + added)
  {
    var last := prior[|prior| - 1].instant;
    var added := NewRows(rows, last);
    NewRowsWellFormed(rows, last);
    ConcatWellFormed(prior, added);
    StrictlyAscendingIsAscending(rows);
    NewRowsOfAscending(rows, last);
    assert StrictlyAscending(added);
    forall i | 0 <= i < |added| ensures added[i].instant > last {
      assert added[i] in added;
    }
    ConcatStrictlyAscending(prior, added);
  }

  /** With a resume point, the file becomes its old bytes followed by the
      batch rows strictly after the resume point (none when there are none). */
  lemma StoreAppendsNewRows(files: map<string, seq<byte>>, ticker: string, c: Codec, s: Stamp, table: Table)
    requires ticker in files && table.columns != []
    ensures var after := Store(files, ticker, c, Some(s), Fetched(table));
            ticker in after
            && after[ticker] == files[ticker] + RenderRows(c, NewRows(ToDisplayZone(table.rows), SinceInstant(s)))
  {
    var added := NewRows(ToDisplayZone(table.rows), SinceInstant(s));
    if added == [] {
      assert files[ticker] + RenderRows(c, added) == files[ticker];
    }
  }

  /** A file holding only a header is replaced by the header and the whole
      batch. */
  lemma HeaderOnlyIsRewritten(files: map<string, seq<byte>>, ticker: string, c: Codec,
                              columns: seq<seq<byte>>, table: Table)
    requires ticker in files && files[ticker] == HeaderLine(columns) && WellFormedValues(columns)
    requires !IsEmpty(table)
    ensures var after := Reconcile(files, ticker, c, Fetched(table));
            ticker in after && after[ticker] == HeaderLine(table.columns) + RenderRows(c, ToDisplayZone(table.rows))
  {
    ResumeOfHeaderOnly(columns, c.parse);
  }

  /** A file whose last line is blank has no resume point, so a non-empty
      download replaces all of it, earlier rows included. */
  lemma BlankLastLineIsRewritten(files: map<string, seq<byte>>, ticker: string, c: Codec, table: Table)
    requires ticker in files && |files[ticker]| >= 2
    requires files[ticker][|files[ticker]| - 2] == NL && files[ticker][|files[ticker]| - 1] == NL
    requires !IsEmpty(table)
    ensures var after := Reconcile(files, ticker, c, Fetched(table));
            ticker in after && after[ticker] == HeaderLine(table.columns) + RenderRows(c, ToDisplayZone(table.rows))
  {
    ResumeOfBlankLastLine(files[ticker], c.parse);
  }

  /** The first run on a ticker without a file writes the header and the batch. */
  lemma FirstRun(files: map<string, seq<byte>>, ticker: string, c: Codec, table: Table)
    requires ValidCodec(c) && ticker !in files && WellFormedTable(table) && table.rows != []
    ensures var after := Reconcile(files, ticker, c, Fetched(table));
            var rows := ToDisplayZone(table.rows);
            ticker in after && after[ticker] == HeaderLine(table.columns) + RenderRows(c, rows)
            && ResumeOf(after, ticker, c.parse) == Some(Aware(rows[|rows| - 1].instant, KOLKATA_OFFSET))
  {
    RewriteThenResume(files, ticker, c, table);
  }

  /** A run on a file holding a header and rows appends the batch rows after
      the last of them. */
  lemma NextRun(files: map<string, seq<byte>>, ticker: string, c: Codec,
                columns: seq<seq<byte>>, prior: seq<Row>, table: Table)
    requires ValidCodec(c) && table.columns != []
    requires ticker in files && files[ticker] == HeaderLine(columns) + RenderRows(c, prior)
    requires prior != [] && WellFormedRow(prior[|prior| - 1])
    ensures var after := Reconcile(files, ticker, c, Fetched(table));
            var added := NewRows(ToDisplayZone(table.rows), prior[|prior| - 1].instant);
            ticker in after && after[ticker] == HeaderLine(columns) + RenderRows(c, prior + added)
  {
    var resume := Aware(prior[|prior| - 1].instant, KOLKATA_OFFSET);
    assert ResumeOf(files, ticker, c.parse) == Some(resume) by {
      ResumeAfterRows(c, HeaderLine(columns), prior);
    }
    StoreSeriesContent(files, ticker, c, columns, prior, resume, table);
  }

  /** Two runs on an empty directory: rows at t1 < t2 < t3, then rows at t2,
      t3, t4. The file ends with the header, the rows of the first run and the
      row at t4. */
  lemma TwoRunScenario(files: map<string, seq<byte>>, ticker: string, c: Codec, columns: seq<seq<byte>>,
                       r1: RawRow, r2: RawRow, r3: RawRow, s2: RawRow, s3: RawRow, s4: RawRow)
    requires ValidCodec(c) && ticker !in files && WellFormedValues(columns)
    requires WellFormedValues(r1.values) && WellFormedValues(r2.values) && WellFormedValues(r3.values)
    requires IndexInstant(r1.index) < IndexInstant(r2.index) < IndexInstant(r3.index)
    requires IndexInstant(s2.index) == IndexInstant(r2.index) && IndexInstant(s3.index) == IndexInstant(r3.index)
    requires IndexInstant(r3.index) < IndexInstant(s4.index)
    ensures var first := Reconcile(files, ticker, c, Fetched(Table(columns, [r1, r2, r3])));
            var second := Reconcile(first, ticker, c, Fetched(Table(columns, [s2, s3, s4])));
            ticker in second && second[ticker] == HeaderLine(columns)
              + RenderRows(c, ToDisplayZone([r1, r2, r3]) + [DisplayRow(s4)])
  {
    var t1 := Table(columns, [r1, r2, r3]);
    var t2 := Table(columns, [s2, s3, s4]);
    var d1 := [DisplayRow(r1), DisplayRow(r2), DisplayRow(r3)];
    assert ToDisplayZone(t1.rows) == d1;
    assert ToDisplayZone(t2.rows) == [DisplayRow(s2), DisplayRow(s3), DisplayRow(s4)];
    NewRowsOfThree(DisplayRow(s2), DisplayRow(s3), DisplayRow(s4), IndexInstant(r3.index));
    FirstRun(files, ticker, c, t1);
    NextRun(Reconcile(files, ticker, c, Fetched(t1)), ticker, c, columns, d1, t2);
  }

  lemma NewRowsOfThree(a: Row, b: Row, x: Row, since: int)
    requires a.instant <= since && b.instant <= since < x.instant
    ensures NewRows([a, b, x], since) == [x]
  {
    assert [a, b, x][1..] == [b, x];
    assert [b, x][1..] == [x];
    assert [x][1..] == [];
  }

  predicate Distinct(tickers: seq<string>)
  {
    forall i, j :: 0 <= i < j < |tickers| ==> tickers[i] != tickers[j]
  }

  /** One ticker's step reads and writes only that ticker's file and that
      ticker's downloads. */
  lemma CollectLocal(f1: map<string, seq<byte>>, f2: map<string, seq<byte>>, ticker: string, c: Codec,
                     p1: (string, Request) -> Download, p2: (string, Request) -> Download, now: int)
    requires Lookup(f1, ticker) == Lookup(f2, ticker)
    requires forall r :: p1(ticker, r) == p2(ticker, r)
    ensures Lookup(Collect(f1, ticker, c, p1, now), ticker) == Lookup(Collect(f2, ticker, c, p2, now), ticker)
  {
    var resume := ResumeOf(f1, ticker, c.parse);
    assert resume == ResumeOf(f2, ticker, c.parse);
    var d := p1(ticker, ChooseRequest(resume, now));
    assert d == p2(ticker, ChooseRequest(resume, now));
    StoreLocal(f1, f2, ticker, c, resume, d);
  }

  lemma StoreLocal(f1: map<string, seq<byte>>, f2: map<string, seq<byte>>, ticker: string, c: Codec,
                   resume: Option<Stamp>, d: Download)
    requires Lookup(f1, ticker) == Lookup(f2, ticker)
    requires resume.Some? ==> ticker in f1
    ensures Lookup(Store(f1, ticker, c, resume, d), ticker) == Lookup(Store(f2, ticker, c, resume, d), ticker)
  {
  }

  /** After `main`'s loop, a ticker's file is what its own step, at its own
      clock reading, makes of the file it started with; a ticker not in the
      list keeps its file. */
  lemma {:induction false} CollectAllAt(files: map<string, seq<byte>>, tickers: seq<string>, c: Codec,
                                        p: (string, Request) -> Download, clock: string -> int, t: string)
    requires Distinct(tickers)
    ensures t !in tickers ==> Lookup(CollectAll(files, tickers, c, p, clock), t) == Lookup(files, t)
    ensures t in tickers ==>
              Lookup(CollectAll(files, tickers, c, p, clock), t) == Lookup(Collect(files, t, c, p, clock(t)), t)
    decreases |tickers|
  {
    if tickers != [] {
      var init := tickers[..|tickers| - 1];
      var last := tickers[|tickers| - 1];
      assert Distinct(init);
      CollectAllAt(files, init, c, p, clock, t);
      var mid := CollectAll(files, init, c, p, clock);
      if last == t {
        assert t !in init;
        CollectLocal(mid, files, t, c, p, p, clock(t));
      } else {
        assert t in tickers <==> t in init;
      }
    }
  }

  lemma TickersDistinct()
    ensures Distinct(TICKERS)
  {
  }

  /** Failure isolation: the file of a ticker after `main` depends only on its
      own file, its own downloads and the clock while it is processed, whatever
      the other tickers' downloads do, an exception included. */
  lemma RunIsolation(f1: map<string, seq<byte>>, f2: map<string, seq<byte>>, c: Codec,
                     p1: (string, Request) -> Download, p2: (string, Request) -> Download,
                     clock1: string -> int, clock2: string -> int, t: string)
    requires Lookup(f1, t) == Lookup(f2, t)
    requires forall r :: p1(t, r) == p2(t, r)
    requires clock1(t) == clock2(t)
    ensures Lookup(CollectAll(f1, TICKERS, c, p1, clock1), t) == Lookup(CollectAll(f2, TICKERS, c, p2, clock2), t)
  {
    TickersDistinct();
    CollectAllAt(f1, TICKERS, c, p1, clock1, t);
    CollectAllAt(f2, TICKERS, c, p2, clock2, t);
    if t in TICKERS {
      CollectLocal(f1, f2, t, c, p1, p2, clock1(t));
    }
  }
}
