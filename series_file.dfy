/**
  The bytes `to_csv` writes for a series: a header line (index label, then the
  column names) when a file is created, and one line per row, its instant
  rendered in Asia/Kolkata followed by the row's fields. The lemmas here read
  such bytes back with the last-line scan.
*/
module SeriesFile {
  import opened Wrappers
  import opened CsvBytes
  import opened Timestamps
  import opened LastLine

  /** A row after index normalisation: the instant of its index and the
      rendered value of each column. */
  datatype Row = Row(instant: int, values: seq<seq<byte>>)

  /** The index label of a 5-minute series. */
  const INDEX_LABEL: seq<byte> := Ascii("Datetime")

  function HeaderLine(columns: seq<seq<byte>>): seq<byte>
  {
    INDEX_LABEL + CsvTail(columns) + [NL]
  }

  function RowLine(c: Codec, r: Row): seq<byte>
  {
    c.render(r.instant) + CsvTail(r.values) + [NL]
  }

  /** The lines of `rows`, in order. */
  function RenderRows(c: Codec, rows: seq<Row>): seq<byte>
  {
    if rows == [] then [] else RenderRows(c, rows[..|rows| - 1]) + RowLine(c, rows[|rows| - 1])
  }

  /** At least one value column, and no value holding a newline. */
  predicate WellFormedValues(values: seq<seq<byte>>)
  {
    |values| > 0 && NoNewline(values)
  }

  predicate WellFormedRow(r: Row)
  {
    WellFormedValues(r.values)
  }

  predicate AllWellFormed(rows: seq<Row>)
  {
    forall i :: 0 <= i < |rows| ==> WellFormedRow(rows[i])
  }

  predicate EndsLine(f: seq<byte>)
  {
    f == [] || f[|f| - 1] == NL
  }

  /** Writing two batches one after the other writes their concatenation. */
  lemma {:induction false} RenderRowsAppend(c: Codec, a: seq<Row>, b: seq<Row>)
    ensures RenderRows(c, a + b) == RenderRows(c, a) + RenderRows(c, b)
    decreases |b|
  {
    if b != [] {
      var b' := b[..|b| - 1];
      assert (a + b)[..|a + b| - 1] == a + b';
      assert (a + b)[|a + b| - 1] == b[|b| - 1];
      RenderRowsAppend(c, a, b');
    } else {
      assert a + b == a;
    }
  }

  lemma RenderRowsEndsLine(c: Codec, rows: seq<Row>)
    ensures EndsLine(RenderRows(c, rows))
  {
    if rows != [] {
      var line := RowLine(c, rows[|rows| - 1]);
      assert RenderRows(c, rows)[|RenderRows(c, rows)| - 1] == line[|line| - 1];
    }
  }

  lemma AppendEndsLine(a: seq<byte>, b: seq<byte>)
    requires EndsLine(a) && EndsLine(b)
    ensures EndsLine(a + b)
  {
    if b == [] {
      assert a + b == a;
    }
  }

  /** A line ends with its only newline. */
  predicate IsOneLine(line: seq<byte>)
  {
    |line| > 0 && line[|line| - 1] == NL && forall i :: 0 <= i < |line| - 1 ==> line[i] != NL
  }

  lemma OneLine(body: seq<byte>)
    requires NL !in body
    ensures IsOneLine(body + [NL])
  {
    var line := body + [NL];
    forall i | 0 <= i < |line| - 1 ensures line[i] != NL {
      assert line[i] == body[i];
    }
  }

  lemma RowLineIsOneLine(c: Codec, r: Row)
    requires ValidCodec(c) && WellFormedRow(r)
    ensures IsOneLine(RowLine(c, r))
  {
    assert WellRendered(c.render(r.instant));
    OneLine(c.render(r.instant) + CsvTail(r.values));
  }

  /** A rendered row line, read as a last line, gives back the row's instant,
      aware, at +05:30. */
  lemma ClassifyRowLine(c: Codec, r: Row)
    requires ValidCodec(c) && WellFormedRow(r)
    ensures ClassifyLine(RowLine(c, r), c.parse) == Some(Aware(r.instant, KOLKATA_OFFSET))
  {
    var field := c.render(r.instant);
    assert WellRendered(field);
    var tail := CsvTail(r.values);
    var line := RowLine(c, r);
    var k := |field|;
    assert line[k] == tail[0] == COMMA;
    StripKeepsPrefix(line, k);
    var s := Strip(line);
    assert s[..k + 1] == line[..k + 1] == field + [COMMA];
    assert s[k] == COMMA;
    FirstFieldBeforeComma(s, field);
    assert Lower(field)[0] == field[0];
  }

  /** Round trip: whatever precedes them, once rows are written the resume
      point of the file is the instant of the last row written. */
  lemma ResumeAfterRows(c: Codec, pre: seq<byte>, rows: seq<Row>)
    requires ValidCodec(c)
    requires EndsLine(pre)
    requires rows != [] && WellFormedRow(rows[|rows| - 1])
    ensures ResumePoint(pre + RenderRows(c, rows), c.parse)
            == Some(Aware(rows[|rows| - 1].instant, KOLKATA_OFFSET))
  {
    var last := rows[|rows| - 1];
    var init := RenderRows(c, rows[..|rows| - 1]);
    SplitLastRow(c, pre, rows);
    RowLineIsOneLine(c, last);
    ResumeOfAppendedLine(pre + init, RowLine(c, last), c.parse);
    ClassifyRowLine(c, last);
  }

  /** Appending a row to a file `init + tail` whose last line `tail` has no
      newline joins the two: the line read back is `tail` followed by the
      row's line, and the resume point is the classification of that joined
      line. */
  lemma AppendJoinsLastLine(c: Codec, init: seq<byte>, tail: seq<byte>, r: Row)
    requires ValidCodec(c) && WellFormedRow(r)
    requires EndsLine(init) && tail != [] && NL !in tail
    ensures var f := init + (tail + RowLine(c, r));
            LastLineStart(f) == |init| && ReadLine(f, |init|) == tail + RowLine(c, r)
            && ResumePoint(f, c.parse) == ClassifyLine(tail + RowLine(c, r), c.parse)
  {
    RowLineIsOneLine(c, r);
    JoinUnterminated(init, tail, RowLine(c, r), c.parse);
  }

  /** An unterminated last line followed by one more line reads back as one
      line. */
  lemma JoinUnterminated(init: seq<byte>, tail: seq<byte>, row: seq<byte>, parse: seq<byte> -> Option<Stamp>)
    requires EndsLine(init) && NL !in tail && IsOneLine(row)
    ensures var f := init + (tail + row);
            LastLineStart(f) == |init| && ReadLine(f, |init|) == tail + row
            && ResumePoint(f, parse) == ClassifyLine(tail + row, parse)
  {
    var line := tail + row;
    JoinedIsOneLine(tail, row);
    assert LastLineStart(init + line) == |init| && ReadLine(init + line, |init|) == line by {
      LastLineOfAppend(init, line);
    }
    assert ResumePoint(init + line, parse) == ClassifyLine(line, parse) by {
      ResumeOfAppendedLine(init, line, parse);
    }
  }

  lemma JoinedIsOneLine(tail: seq<byte>, row: seq<byte>)
    requires NL !in tail && IsOneLine(row)
    ensures IsOneLine(tail + row)
  {
    var line := tail + row;
    forall i | 0 <= i < |line| - 1 ensures line[i] != NL {
      if i >= |tail| {
        assert line[i] == row[i - |tail|];
      }
    }
  }

  /** The bytes of a non-empty batch after a prefix: a part ending a line,
      then the last row's line. */
  lemma SplitLastRow(c: Codec, pre: seq<byte>, rows: seq<Row>)
    requires EndsLine(pre) && rows != []
    ensures var init := pre + RenderRows(c, rows[..|rows| - 1]);
            pre + RenderRows(c, rows) == init + RowLine(c, rows[|rows| - 1]) && EndsLine(init)
  {
    var init := RenderRows(c, rows[..|rows| - 1]);
    RenderRowsEndsLine(c, rows[..|rows| - 1]);
    AppendEndsLine(pre, init);
  }

  /** The header line is classified as holding no timestamp. */
  lemma ClassifyHeaderLine(columns: seq<seq<byte>>, parse: seq<byte> -> Option<Stamp>)
    requires WellFormedValues(columns)
    ensures ClassifyLine(HeaderLine(columns), parse) == None
  {
    var line := HeaderLine(columns);
    var k := |INDEX_LABEL|;
    assert line[k] == COMMA;
    StripKeepsPrefix(line, k);
    var s := Strip(line);
    assert s[..k + 1] == line[..k + 1] == INDEX_LABEL + [COMMA];
    assert s[k] == COMMA;
    FirstFieldBeforeComma(s, INDEX_LABEL);
    assert Lower(INDEX_LABEL) == LOWER_DATETIME;
  }

  /** A file that holds only a header has no resume point. */
  lemma ResumeOfHeaderOnly(columns: seq<seq<byte>>, parse: seq<byte> -> Option<Stamp>)
    requires WellFormedValues(columns)
    ensures ResumePoint(HeaderLine(columns), parse) == None
  {
    var line := HeaderLine(columns);
    assert NL !in INDEX_LABEL;
    OneLine(INDEX_LABEL + CsvTail(columns));
    assert [] + line == line;
    ResumeOfAppendedLine([], line, parse);
    ClassifyHeaderLine(columns, parse);
  }
}
